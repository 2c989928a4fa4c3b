/**
 The interhost step of `ulm_bcast`: the root's data goes from representative to representative
 in blocks, straight from user buffer to user buffer; a host may be blocks ahead of another.
 */
module BcastBlocks {
  import opened Bits
  import opened Layout
  import opened Network
  import opened Buffers
  import opened Posted
  import opened Phases
  import opened Ranks
  import opened Stripes
  import opened Blockwise
  import BcastInterhost
  import IntrahostReduce

  /**
   `before[h][i]` is the user buffer of the i-th process of host h; the root is process `root` of
   host `rootHost`; `chunk` is the size of the hosts' shared buffers.
   */
  datatype Job<T> = Job(before: seq<seq<seq<T>>>, rootHost: nat, root: nat, count: nat, extent: nat, chunk: nat)

  function BcastSize<T>(job: Job<T>): nat { job.count * job.extent }

  ghost predicate ValidJob<T>(job: Job<T>) {
    && job.rootHost < |job.before| && job.root < |job.before[job.rootHost]| && job.extent > 0 && job.chunk > 0
    && (forall h :: 0 <= h < |job.before| ==> job.before[h] != [])
    && forall h, i {:trigger job.before[h][i]} :: 0 <= h < |job.before| && 0 <= i < |job.before[h]| ==>
         |job.before[h][i]| >= BcastSize(job)
  }

  /** The representative of a host: the root, or else the first process. */
  function Rep<T>(job: Job<T>, h: nat): nat { if h == job.rootHost then job.root else 0 }

  ghost function Data<T>(job: Job<T>): (data: seq<T>)
    requires ValidJob(job)
    ensures |data| == BcastSize(job)
  {
    job.before[job.rootHost][job.root][..BcastSize(job)]
  }

  const BLOCK_SIZE := 131072

  /** The bytes in a block: as many elements as fit, at least one. */
  ghost function Size<T>(job: Job<T>): (size: nat)
    requires ValidJob(job)
    ensures size > 0
  {
    BlockCount(BLOCK_SIZE, job.extent) * job.extent
  }

  ghost function Blocks<T>(job: Job<T>): nat
    requires ValidJob(job)
  {
    NumBlocks(BcastSize(job), Size(job), |job.before|)
  }

  ghost function Len<T>(job: Job<T>): nat
    requires ValidJob(job)
  {
    IntrahostReduce.Masks(|job.before|)
  }

  ghost function SegmentOf<T>(job: Job<T>, b: nat): Segment
    requires ValidJob(job)
  {
    BlockSegment(BcastSize(job), Size(job), b)
  }

  // ---------------------------------------------------------------- the messages of a block

  ghost function FanOutScript(h: nat, root: nat, nhost: nat): (script: seq<Round<()>>)
    requires h < nhost && root < nhost
    ensures |script| == IntrahostReduce.Masks(nhost)
  {
    seq(IntrahostReduce.Masks(nhost), k requires 0 <= k =>
      BcastInterhost.BcastRound(ToRelative(h, root, nhost), k, root, nhost))
  }

  /** Under a mask that is not below the number of hosts nobody has anything to do. */
  lemma {:induction false} IsFanOutScript(h: nat, root: nat, nhost: nat)
    requires h < nhost && root < nhost
    ensures BcastInterhost.IsScript(FanOutScript(h, root, nhost), h, root, nhost)
  {
    var self, masks := ToRelative(h, root, nhost), IntrahostReduce.Masks(nhost);
    forall k: nat
      ensures RoundAt(FanOutScript(h, root, nhost), k) == BcastInterhost.BcastRound(self, k, root, nhost)
    {
      if k >= masks {
        Pow2Monotone(masks, k);
        BcastInterhost.Peer(self, k);
      }
    }
  }

  ghost function FanOutScripts(root: nat, nhost: nat): (scripts: seq<seq<Round<()>>>)
    requires root < nhost
    ensures |scripts| == nhost
    ensures forall h :: 0 <= h < nhost ==> scripts[h] == FanOutScript(h, root, nhost)
  {
    seq(nhost, h requires 0 <= h < nhost => FanOutScript(h, root, nhost))
  }

  ghost function FanOutNet<T>(job: Job<T>): (net: Net<(), seq<T>, seq<T>>)
    requires ValidJob(job)
    ensures net.scripts == FanOutScripts(job.rootHost, |job.before|)
  {
    BcastInterhost.BcastNet(FanOutScripts(job.rootHost, |job.before|))
  }

  lemma {:induction false} FanOutIs<T>(job: Job<T>)
    requires ValidJob(job)
    ensures BcastInterhost.AreScripts(FanOutNet(job).scripts, job.rootHost, |job.before|)
    ensures Consistent(FanOutNet(job))
  {
    hide FanOutScript, BcastInterhost.IsScript;
    var net := FanOutNet(job);
    forall h | 0 <= h < |job.before|
      ensures BcastInterhost.IsScript(net.scripts[h], h, job.rootHost, |job.before|)
    {
      IsFanOutScript(h, job.rootHost, |job.before|);
    }
    assert BcastInterhost.AreScripts(net.scripts, job.rootHost, |job.before|);
    BcastInterhost.BcastPairs(net, job.rootHost, |job.before|);
  }

  ghost function BlockScripts<T>(job: Job<T>, b: nat): (scripts: seq<seq<Round<Segment>>>)
    requires ValidJob(job)
    ensures |scripts| == |job.before|
  {
    OnSegments(FanOutScripts(job.rootHost, |job.before|), SegmentOf(job, b))
  }

  ghost function BlocksOf<T>(job: Job<T>): (phases: seq<seq<seq<Round<Segment>>>>)
    requires ValidJob(job)
    ensures |phases| == Blocks(job) && forall b :: 0 <= b < |phases| ==> phases[b] == BlockScripts(job, b)
    ensures Phased(phases, |job.before|, Len(job))
  {
    BlocksInStep(FanOutScripts(job.rootHost, |job.before|), BcastSize(job), Size(job), Len(job));
    BlockPhases(FanOutScripts(job.rootHost, |job.before|), BcastSize(job), Size(job))
  }

  /** A host: its representative's user buffer. */
  type Node<T> = Host<seq<T>, ()>

  /** The representatives do nothing but send and receive. */
  ghost function BcastPlan<T>(job: Job<T>): (plan: Plan<Segment, seq<T>, (), seq<T>>)
    requires ValidJob(job)
    ensures IsPlan(plan) && |plan.phases| == Blocks(job) && plan.n == |job.before| && plan.len == Len(job)
  {
    Plan(BufferNet([]), BlocksOf(job), |job.before|, Len(job), (h: nat, b: nat, stage: nat, st: Node<T>) => st)
  }

  lemma {:induction false} BlockNet<T>(job: Job<T>, b: nat)
    requires ValidJob(job) && b < Blocks(job)
    ensures PhaseOf(BcastPlan(job), b) == BufferNet<T>(BlockScripts(job, b))
    ensures Consistent(PhaseOf(BcastPlan(job), b))
  {
    hide OnSegments, BlockSegment, Consistent, FanOutNet, RoundAt;
    FanOutIs(job);
    SegmentsPair(FanOutNet(job), BufferNet<T>(BlockScripts(job, b)), SegmentOf(job, b));
  }

  // ---------------------------------------------------------------- one block

  /** `u` is the round-by-round run of the messages of block b. */
  ghost predicate BlockRun<T>(job: Job<T>, b: nat, u: seq<seq<seq<T>>>)
    requires ValidJob(job)
  {
    var net := BufferNet<T>(BlockScripts(job, b));
    && Consistent(net) && |u| == Len(job) + 1 && |u[0]| == |job.before| && IsTrace(net, u[0], u)
    && (forall k :: 0 <= k < |u| ==> |u[k]| == |job.before|)
    && forall h :: 0 <= h < |job.before| ==> SegmentOf(job, b).off + SegmentOf(job, b).len <= |u[0][h]|
  }

  /** One round: under mask `2^k` the hosts from that rank on, up to twice it, receive. */
  lemma {:induction false} BlockStep<T>(job: Job<T>, b: nat, u: seq<seq<seq<T>>>, k: nat, h: nat)
    requires ValidJob(job) && BlockRun(job, b, u) && k + 1 < |u| && h < |job.before|
    ensures var self, seg := ToRelative(h, job.rootHost, |job.before|), SegmentOf(job, b);
      u[k + 1][h] ==
      if Pow2(k) <= self < 2 * Pow2(k)
      then Write(u[k][h], seg.off, Read(u[k][ToAbsolute(self - Pow2(k), job.rootHost, |job.before|)], seg))
      else u[k][h]
  {
    hide OnSegments, Consistent, FanOutNet, RoundAt, SegmentOf, Write, Read, IsTrace, Len, Pow2;
    var net, seg := BufferNet<T>(BlockScripts(job, b)), SegmentOf(job, b);
    FanOutIs(job);
    SegmentRound(FanOutNet(job), net, seg, h, k);
    BcastInterhost.RoundPairs(FanOutNet(job), job.rootHost, |job.before|, h, k);
    TraceNext(net, u[0], u, k, h);
    if InAt(net, h, k).Some? {
      SegmentRound(FanOutNet(job), net, seg, InAt(net, h, k).value.peer, k);
    }
  }

  /** What host h has before mask `2^k`: the root's block in place if its relative rank is below the mask. */
  ghost function Reached<T>(job: Job<T>, b: nat, bufs: seq<seq<T>>, k: nat, h: nat): seq<T>
    requires ValidJob(job) && |bufs| == |job.before| && h < |job.before|
  {
    var self, seg := ToRelative(h, job.rootHost, |job.before|), SegmentOf(job, b);
    if self < Pow2(k) then Write(bufs[h], seg.off, Read(bufs[job.rootHost], seg)) else bufs[h]
  }

  /** A host that is reached under mask `2^k` gets the root's block from one that was reached before. */
  lemma {:induction false} ReachStep<T>(job: Job<T>, b: nat, bufs: seq<seq<T>>, k: nat, h: nat)
    requires ValidJob(job) && |bufs| == |job.before| && h < |job.before|
    requires forall g :: 0 <= g < |bufs| ==> SegmentOf(job, b).off + SegmentOf(job, b).len <= |bufs[g]|
    ensures var self, seg := ToRelative(h, job.rootHost, |job.before|), SegmentOf(job, b);
      if Pow2(k) <= self < 2 * Pow2(k)
      then
        var from := ToAbsolute(self - Pow2(k), job.rootHost, |job.before|);
        Reached(job, b, bufs, k + 1, h) ==
        Write(Reached(job, b, bufs, k, h), seg.off, Read(Reached(job, b, bufs, k, from), seg))
      else Reached(job, b, bufs, k + 1, h) == Reached(job, b, bufs, k, h)
  {
    hide SegmentOf, Write, Read, BcastSize, ToAbsolute;
    var self, seg := ToRelative(h, job.rootHost, |job.before|), SegmentOf(job, b);
    if Pow2(k) <= self < 2 * Pow2(k) {
      ReadBack(bufs[ToAbsolute(self - Pow2(k), job.rootHost, |job.before|)], seg, bufs[job.rootHost]);
    }
  }

  /** Before mask `2^k` exactly the hosts of relative rank below it have the root's block. */
  lemma {:induction false} BlockFrontier<T>(job: Job<T>, b: nat, u: seq<seq<seq<T>>>, k: nat, h: nat)
    requires ValidJob(job) && BlockRun(job, b, u) && k < |u| && h < |job.before|
    ensures |u| > 0 && |u[0]| == |job.before| && |u[k]| == |job.before| && u[k][h] == Reached(job, b, u[0], k, h)
    decreases k
  {
    hide BlockRun, SegmentOf, BcastSize, Len, Reached, ToAbsolute, ToRelative, Pow2, Read, Write;
    BlockShape(job, b, u);
    if k == 0 {
      NobodyReached(job, b, u[0], h);
    } else {
      BlockFrontier(job, b, u, k - 1, h);
      BlockStep(job, b, u, k - 1, h);
      ReachStep(job, b, u[0], k - 1, h);
      var self := ToRelative(h, job.rootHost, |job.before|);
      if Pow2(k - 1) <= self < 2 * Pow2(k - 1) {
        BlockFrontier(job, b, u, k - 1, ToAbsolute(self - Pow2(k - 1), job.rootHost, |job.before|));
      }
    }
  }

  lemma {:induction false} NobodyReached<T>(job: Job<T>, b: nat, bufs: seq<seq<T>>, h: nat)
    requires ValidJob(job) && |bufs| == |job.before| && h < |job.before|
    ensures Reached(job, b, bufs, 0, h) == bufs[h]
  {
    hide SegmentOf, Write, Read, BcastSize;
    if h == job.rootHost {
      WriteBack(bufs[h], SegmentOf(job, b));
    }
  }

  lemma {:induction false} BlockShape<T>(job: Job<T>, b: nat, u: seq<seq<seq<T>>>)
    requires ValidJob(job) && BlockRun(job, b, u)
    ensures |u| == Len(job) + 1 && forall k :: 0 <= k < |u| ==> |u[k]| == |job.before|
    ensures forall h :: 0 <= h < |job.before| ==> SegmentOf(job, b).off + SegmentOf(job, b).len <= |u[0][h]|
  {
  }

  lemma {:induction false} WriteBack<T>(buf: seq<T>, seg: Segment)
    ensures Write(buf, seg.off, Read(buf, seg)) == buf
  {
    if seg.off + seg.len <= |buf| {
      assert buf == buf[..seg.off] + buf[seg.off..seg.off + seg.len] + buf[seg.off + seg.len..];
    } else if seg.off <= |buf| {
      assert buf == buf[..seg.off] + [] + buf[seg.off..];
    }
  }

  lemma {:induction false} ReadBack<T>(buf: seq<T>, seg: Segment, from: seq<T>)
    requires seg.off + seg.len <= |buf| && seg.off + seg.len <= |from|
    ensures Read(Write(buf, seg.off, Read(from, seg)), seg) == Read(from, seg)
  {
  }

  /** After the messages of a block every host has the root's block. */
  lemma {:induction false} BlockArrives<T>(job: Job<T>, b: nat, u: seq<seq<seq<T>>>, h: nat)
    requires ValidJob(job) && BlockRun(job, b, u) && h < |job.before|
    ensures |u| == Len(job) + 1 && |u[Len(job)]| == |u[0]| == |job.before|
    ensures var seg := SegmentOf(job, b); u[Len(job)][h] == Write(u[0][h], seg.off, Read(u[0][job.rootHost], seg))
  {
    hide BlockRun, SegmentOf, Write, Read, Pow2, BcastSize;
    BlockShape(job, b, u);
    BlockFrontier(job, b, u, Len(job), h);
  }

  // ---------------------------------------------------------------- between the blocks

  /** The user buffer of the representative of host h before the call. */
  ghost function Mine<T>(job: Job<T>, h: nat): (buf: seq<T>)
    requires ValidJob(job) && h < |job.before|
    ensures |buf| >= BcastSize(job)
  {
    job.before[h][Rep(job, h)]
  }

  /** The blocks before block b are in place, and nothing else has changed. */
  ghost predicate Holds<T>(job: Job<T>, hosts: seq<Node<T>>, b: nat)
    requires ValidJob(job)
  {
    |hosts| == |job.before| &&
    forall h :: 0 <= h < |hosts| ==> hosts[h].shared == Write(Mine(job, h), 0, Before(Data(job), b, Size(job)))
  }

  lemma {:induction false} WriteOwn<T>(buf: seq<T>, d: seq<T>)
    requires d <= buf
    ensures Write(buf, 0, d) == buf
  {
  }

  lemma {:induction false} WriteMore<T>(buf: seq<T>, d: seq<T>, p: seq<T>)
    requires |d| + |p| <= |buf|
    ensures Write(Write(buf, 0, d), |d|, p) == Write(buf, 0, d + p)
  {
  }

  /** What the root sends in block b. */
  lemma {:induction false} RootSends<T>(job: Job<T>, b: nat)
    requires ValidJob(job) && b < Blocks(job)
    ensures Write(Mine(job, job.rootHost), 0, Before(Data(job), b, Size(job))) == Mine(job, job.rootHost)
    ensures Read(Mine(job, job.rootHost), SegmentOf(job, b)) == Piece(Data(job), b, Size(job)) != []
    ensures |Before(Data(job), b, Size(job))| == SegmentOf(job, b).off
    ensures SegmentOf(job, b).off + SegmentOf(job, b).len <= BcastSize(job)
    ensures |Piece(Data(job), b, Size(job))| == SegmentOf(job, b).len
  {
    hide BcastSize, Before, Size, NumBlocks;
    var mine, data := Mine(job, job.rootHost), Data(job);
    BlockWithin(BcastSize(job), Size(job), |job.before|, b);
    PiecesJoin(data, b, Size(job));
    WriteOwn(mine, Before(data, b, Size(job)));
    ReadPart(mine, data, b, Size(job));
  }

  lemma {:induction false} ReadPart<T>(buf: seq<T>, data: seq<T>, b: nat, size: nat)
    requires data <= buf && b * size + PieceLen(|data|, b, size) <= |data| && PieceLen(|data|, b, size) > 0
    ensures Read(buf, Segment(b * size, PieceLen(|data|, b, size))) == Piece(data, b, size)
  {
  }

  // ---------------------------------------------------------------- all blocks

  /** `t` is the round-by-round run of all blocks. */
  ghost predicate BlockedRun<T>(job: Job<T>, init: seq<Node<T>>, t: seq<seq<Node<T>>>)
    requires ValidJob(job)
  {
    && RunOf(BcastPlan(job), init, t) && (forall r :: 0 <= r < |t| ==> |t[r]| == |job.before|)
    && AllConsistent(BcastPlan(job))
  }

  /** The buffers in the rounds of messages of block b. */
  ghost function BlockAt<T>(job: Job<T>, t: seq<seq<Node<T>>>, b: nat): (u: seq<seq<seq<T>>>)
    requires ValidJob(job) && b < Blocks(job) && Base(b + 1, Len(job)) < |t|
    requires forall r :: 0 <= r < |t| ==> |t[r]| == |job.before|
    ensures |u| == Len(job) + 1 && forall j :: 0 <= j < |u| ==> |u[j]| == |job.before|
    ensures forall j, h {:trigger u[j][h]} :: 0 <= j < |u| && 0 <= h < |job.before| ==>
      u[j][h] == t[Base(b, Len(job)) + 1 + j][h].shared
  {
    Slice(BcastPlan(job), t, b)
  }

  lemma {:induction false} OwnStepsOf<T>(job: Job<T>, init: seq<Node<T>>, t: seq<seq<Node<T>>>, b: nat, h: nat)
    requires ValidJob(job) && BlockedRun(job, init, t) && b < Blocks(job) && h < |job.before|
    requires Base(b + 1, Len(job)) < |t|
    ensures var u := BlockAt(job, t, b);
      u[0][h] == t[Base(b, Len(job))][h].shared && t[Base(b + 1, Len(job))][h].shared == u[Len(job)][h]
  {
    hide RunOf, AllConsistent, IsPlan, Blocks, Len, Slice, BcastSize, BlocksOf;
    OwnSteps(BcastPlan(job), init, t, b, h);
  }

  lemma {:induction false} BlockIsRun<T>(job: Job<T>, init: seq<Node<T>>, t: seq<seq<Node<T>>>, b: nat)
    requires ValidJob(job) && BlockedRun(job, init, t) && b < Blocks(job) && Base(b + 1, Len(job)) < |t|
    requires Holds(job, t[Base(b, Len(job))], b)
    ensures BlockRun(job, b, BlockAt(job, t, b))
  {
    hide RunOf, AllConsistent, Blocks, Len, Slice, SegmentOf, Before, Data, IsTrace, Consistent, OnSegments, BcastSize;
    var u, at := BlockAt(job, t, b), Base(b, Len(job));
    SliceIsTrace(BcastPlan(job), init, t, b);
    BlockNet(job, b);
    RootSends(job, b);
    forall h | 0 <= h < |job.before|
      ensures SegmentOf(job, b).off + SegmentOf(job, b).len <= |u[0][h]|
    {
      OwnStepsOf(job, init, t, b, h);
    }
  }

  lemma {:induction false} BlockDone<T>(job: Job<T>, init: seq<Node<T>>, t: seq<seq<Node<T>>>, b: nat)
    requires ValidJob(job) && BlockedRun(job, init, t) && b < Blocks(job) && Base(b + 1, Len(job)) < |t|
    requires Holds(job, t[Base(b, Len(job))], b)
    ensures Holds(job, t[Base(b + 1, Len(job))], b + 1)
  {
    hide RunOf, AllConsistent, Blocks, Len, Slice, SegmentOf, Before, Data, BlockRun, BcastSize, Read, Write, Mine,
      Piece;
    var u, data, size := BlockAt(job, t, b), Data(job), Size(job);
    BlockIsRun(job, init, t, b);
    RootSends(job, b);
    PiecesJoin(data, b, size);
    OwnStepsOf(job, init, t, b, job.rootHost);
    forall h | 0 <= h < |job.before|
      ensures t[Base(b + 1, Len(job))][h].shared == Write(Mine(job, h), 0, Before(data, b + 1, size))
    {
      OwnStepsOf(job, init, t, b, h);
      BlockArrives(job, b, u, h);
      WriteMore(Mine(job, h), Before(data, b, size), Piece(data, b, size));
    }
  }

  /** Every receive of a block is posted for as many bytes as are sent. */
  lemma {:induction false} BlockAccepts<T>(job: Job<T>, init: seq<Node<T>>, t: seq<seq<Node<T>>>, b: nat)
    requires ValidJob(job) && BlockedRun(job, init, t) && b < Blocks(job) && Base(b + 1, Len(job)) < |t|
    requires Holds(job, t[Base(b, Len(job))], b)
    ensures Consistent(PhaseOf(BcastPlan(job), b)) && InStep(BcastPlan(job).phases[b], |job.before|, Len(job))
    ensures PhaseAccepts(BcastPlan(job), t, b)
  {
    hide RunOf, AllConsistent, Blocks, Len, SegmentOf, Before, Data, Consistent, OnSegments, Holds, BlockRun, RoundAt,
      FanOutNet, IsPlan, BcastSize, Write, BlocksOf;
    BlockNet(job, b);
    SliceIsTrace(BcastPlan(job), init, t, b);
    BlockIsRun(job, init, t, b);
    var net, u := PhaseOf(BcastPlan(job), b), BlockAt(job, t, b);
    BlockShape(job, b, u);
    forall h, j: nat | 0 <= h < |job.before| && j < Len(job) && InAt(net, h, j).Some?
      ensures AcceptsIn(net, u, h, j)
    {
      Paired(net, h, j);
      var q := InAt(net, h, j).value.peer;
      SegmentRound(FanOutNet(job), net, SegmentOf(job, b), h, j);
      SegmentRound(FanOutNet(job), net, SegmentOf(job, b), q, j);
      BlockFrontier(job, b, u, j, q);
    }
  }

  lemma {:induction false} AllBlocks<T>(job: Job<T>, init: seq<Node<T>>, t: seq<seq<Node<T>>>, b: nat)
    requires ValidJob(job) && BlockedRun(job, init, t) && b <= Blocks(job) && Holds(job, init, 0)
    ensures Base(b, Len(job)) < |t| && Holds(job, t[Base(b, Len(job))], b)
    decreases b
  {
    hide AllConsistent, BcastPlan, Holds, Blocks, Len, BcastSize;
    BaseMonotone(b, Blocks(job), Len(job));
    if b > 0 {
      AllBlocks(job, init, t, b - 1);
      BlockDone(job, init, t, b - 1);
    } else {
      TraceStart(PhaseNet(BcastPlan(job)), init, t);
    }
  }

  ghost function Entering<T>(job: Job<T>): (init: seq<Node<T>>)
    requires ValidJob(job)
    ensures |init| == |job.before| && forall h :: 0 <= h < |init| ==> init[h] == Host(Mine(job, h), ())
  {
    seq(|job.before|, h requires 0 <= h < |job.before| => Host(Mine(job, h), ()))
  }

  lemma {:induction false} EnteringHolds<T>(job: Job<T>)
    requires ValidJob(job)
    ensures Holds(job, Entering(job), 0)
  {
    hide BcastSize, Size, Before;
    PiecesJoin(Data(job), 0, Size(job));
    forall h | 0 <= h < |job.before|
      ensures Write(Mine(job, h), 0, []) == Mine(job, h)
    {
      WriteOwn(Mine(job, h), []);
    }
  }

  /** The round-by-round run: all receives accept, and at the end every representative has the root's data. */
  lemma {:induction false} BlockedRunDelivers<T>(job: Job<T>)
    requires ValidJob(job)
    ensures var net := PhaseNet(BcastPlan(job));
      && Consistent(net) && Accepting(net, Entering(job))
      && |Trace(net, Entering(job))| > MaxLength(net.scripts)
      && Holds(job, Trace(net, Entering(job))[MaxLength(net.scripts)], Blocks(job))
  {
    hide BcastPlan, Consistent, IsTrace, Blocks, Len, BcastSize, Holds, PhaseAccepts, RunOf, InStep;
    var plan, init := BcastPlan(job), Entering(job);
    forall b | 0 <= b < Blocks(job)
      ensures Consistent(PhaseOf(plan, b))
    {
      BlockNet(job, b);
    }
    var t := TheRun(plan, init);
    forall r | 0 <= r < |t|
      ensures |t[r]| == |job.before|
    {
      RunShape(job, t, r);
    }
    EnteringHolds(job);
    forall b | 0 <= b < Blocks(job)
      ensures Consistent(PhaseOf(plan, b)) && InStep(plan.phases[b], |job.before|, Len(job))
      ensures Base(b, Len(job)) + Len(job) + 1 < |t| && PhaseAccepts(plan, t, b)
    {
      AllBlocks(job, init, t, b);
      AllBlocks(job, init, t, b + 1);
      BlockAccepts(job, init, t, b);
    }
    AllAccepted(plan, init, t);
    AllBlocks(job, init, t, Blocks(job));
  }

  lemma {:induction false} RunShape<T>(job: Job<T>, t: seq<seq<Node<T>>>, r: nat)
    requires ValidJob(job) && RunOf(BcastPlan(job), Entering(job), t) && r < |t|
    ensures |t[r]| == |job.before|
  {
    hide BcastPlan, Consistent, BcastSize, Base, Len, PhaseNet;
    TraceShape(PhaseNet(BcastPlan(job)), Entering(job), t, r);
  }

  /** When the last block is in place all of the data is. */
  lemma {:induction false} AllInPlace<T>(job: Job<T>, hosts: seq<Node<T>>, h: nat)
    requires ValidJob(job) && Holds(job, hosts, Blocks(job)) && h < |job.before|
    ensures hosts[h].shared == Write(Mine(job, h), 0, Data(job))
  {
    hide BcastSize, Size, Write, Before;
    PiecesJoin(Data(job), 0, Size(job));
    PiecesJoin(Data(job), Blocks(job), Size(job));
    if |job.before| == 1 {
      WriteOwn(Mine(job, h), Before(Data(job), 0, Size(job)));
      WriteOwn(Mine(job, h), Data(job));
    } else if BcastSize(job) > 0 {
      StripesOfOne(BcastSize(job), Size(job));
    }
  }

  // ---------------------------------------------------------------- the host's loop

  /** The source leaves its loop early; what it posts is that of the whole script. */
  lemma {:induction false} PostsBlock(script: seq<Round<()>>, seg: Segment, h: nat, root: nat, nhost: nat)
    requires h < nhost && root < nhost && BcastInterhost.IsScript(script, h, root, nhost)
    ensures Active(OnSegment(script, seg)) == Active(OnSegment(FanOutScript(h, root, nhost), seg))
  {
    hide BcastInterhost.BcastRound, FanOutScript, Active, OnSegment;
    IsFanOutScript(h, root, nhost);
    SamePosts(script, FanOutScript(h, root, nhost), seg);
  }

  /** One block of the host's representative. */
  method BlockOps(host: nat, rootHost: nat, nhost: nat, seg: Segment) returns (ops: seq<Round<Segment>>)
    requires host < nhost && rootHost < nhost
    ensures ops == Active(OnSegment(FanOutScript(host, rootHost, nhost), seg))
  {
    hide Active, FanOutScript;
    var script := BcastInterhost.BcastScript(host, rootHost, nhost);
    PostsBlock(script, seg, host, rootHost, nhost);
    ops := Active(OnSegment(script, seg));
  }

  /** Counting elements and counting bytes. */
  lemma {:induction false} InBytes(blockCount: nat, cnt: nat, extent: nat)
    requires extent > 0
    ensures var n := if blockCount < cnt then blockCount else cnt;
      && n * extent == (if blockCount * extent < cnt * extent then blockCount * extent else cnt * extent)
      && (cnt - n) * extent == cnt * extent - n * extent
    ensures cnt > 0 <==> cnt * extent > 0
  {
    if blockCount < cnt {
      Apart(blockCount, cnt, extent);
    } else {
      Apart(cnt, blockCount, extent);
    }
    Apart(0, cnt, extent);
  }

  lemma {:induction false} Apart(a: nat, b: nat, x: nat)
    requires a <= b && x > 0
    ensures (b - a) * x == b * x - a * x && (a < b ==> a * x < b * x) && 0 * x == 0
  {
  }

  /** The blockwise loop of `ulm_bcast`, and the interhost step of each block. */
  method UlmBcast<T>(host: nat, rootHost: nat, nhost: nat, count: nat, extent: nat, ghost job: Job<T>)
    returns (ops: seq<Round<Deed<Segment>>>)
    requires ValidJob(job) && nhost == |job.before| && rootHost == job.rootHost && count == job.count
    requires extent == job.extent && host < nhost
    ensures ops == PostedBy(PhaseNet(BcastPlan(job)).scripts)[host]
    ensures forall r, seg :: 0 <= r < |ops| && Carries(ops[r], seg) ==>
      && (seg.len == extent || seg.len <= 131072)
      && (seg.off + seg.len == count * extent || seg.len + extent > 131072)
  {
    hide FullBlocks, FullBlock, Carries, Active, Lift, FanOutScript, OnSegment, BlockSegment, BcastSize, ScriptUpto,
      PieceLen;
    ghost var len, phases, bytes := Len(job), BlocksOf(job), BcastSize(job);
    PostedFirst(phases, nhost, len, host);
    ops := [];
    NoBlockYet(bytes, extent, 1, BLOCK_SIZE);
    if nhost > 1 {
      var blockCount := BLOCK_SIZE / extent;
      if blockCount == 0 {
        blockCount := 1;
      }
      var p: nat, cnt: nat, block: nat := 0, count, 0;
      TotalBytes(job);
      while cnt > 0
        invariant block <= Blocks(job) && p + cnt * extent == bytes
        invariant p == if bytes <= block * Size(job) then bytes else block * Size(job)
        invariant ops == Active(ScriptUpto(phases, nhost, len, host, block))
        invariant FullBlocks(ops, bytes, extent, 1, BLOCK_SIZE)
      {
        BlockOrEnd(bytes, Size(job), nhost, block, p);
        InBytes(blockCount, cnt, extent);
        var n := if blockCount < cnt then blockCount else cnt;
        var exchange := BlockOps(host, rootHost, nhost, Segment(p, n * extent));
        assert exchange == Active(phases[block][host]);
        BlockIsFull(p, n, cnt, extent, BLOCK_SIZE);
        BlockJoins(ops, exchange, Segment(p, n * extent), FanOutScript(host, rootHost, nhost), host, block, bytes,
                   extent, 1, BLOCK_SIZE);
        ops := ops + [OwnRound(host, block, 0)] + Lift(exchange) + [OwnRound(host, block, 1)];
        PostedPhase(phases, nhost, len, host, block);
        cnt, p, block := cnt - n, p + n * extent, block + 1;
      }
      BlockOrEnd(bytes, Size(job), nhost, block, p);
    }
    InBlocks(ops, bytes, extent);
  }

  lemma {:induction false} InBlocks(ops: seq<Round<Deed<Segment>>>, bytes: nat, extent: nat)
    requires FullBlocks(ops, bytes, extent, 1, BLOCK_SIZE)
    ensures forall r, seg :: 0 <= r < |ops| && Carries(ops[r], seg) ==>
      && (seg.len == extent || seg.len <= 131072)
      && (seg.off + seg.len == bytes || seg.len + extent > 131072)
  {
    hide Carries;
    forall r, seg | 0 <= r < |ops| && Carries(ops[r], seg)
      ensures seg.len == extent || seg.len <= 131072
      ensures seg.off + seg.len == bytes || seg.len + extent > 131072
    {
      assert FullBlock(seg, bytes, extent, 1, BLOCK_SIZE);
    }
  }

  lemma {:induction false} TotalBytes<T>(job: Job<T>)
    requires ValidJob(job)
    ensures BcastSize(job) == job.count * job.extent && 0 * Size(job) == 0
  {
  }
}
