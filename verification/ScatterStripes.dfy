/**
 `ulm_scatter` from end to end, every process with its own send count: the hosts go through
 the stripes, each at its own pace; in a stripe the root packs, the hosts scatter, each by the
 count of its local rank 0, and every process copies out by its own count.
 */
module ScatterStripes {
  import opened Arith
  import opened Layout
  import opened Network
  import opened Buffers
  import opened Posted
  import opened Phases
  import opened Ranks
  import opened TreeWalk
  import opened CollTree
  import opened ScatterInterhost
  import opened ScatterRun
  import opened Stripes
  import opened Placement
  import opened StripedGather
  import opened StripeExchange
  import opened Scatter

  /**
   `procs[h]` are the ranks on host h, `root` is on `rootHost`; rank r calls with a send count
   of `counts[r]` bytes, and all expect `recvBytes`.
   */
  datatype Job = Job(order: nat, procs: seq<seq<nat>>, rootHost: nat, root: nat, counts: seq<nat>, recvBytes: nat,
                     size: nat)

  ghost predicate ValidJob(job: Job) {
    && job.order >= 2 && job.rootHost < |job.procs| && job.size > 0
    && IsPlacement(job.procs, |job.counts|) && (forall h :: 0 <= h < |job.procs| ==> job.procs[h] != [])
    && job.root < |job.counts| && job.root in job.procs[job.rootHost] && job.recvBytes <= job.counts[job.root]
  }

  /** A host: the shared buffer, and the memory of its processes from their receive buffers on. */
  type Node<T> = Host<seq<T>, seq<seq<T>>>

  ghost function TreeOf(job: Job): Shape { Shape(|job.procs|, job.order) }

  ghost function Len(job: Job): nat
    requires ValidJob(job)
  {
    |job.procs| - 1
  }

  function NumStripes(job: Job): nat
    requires job.size > 0
  {
    StripesFor(job.recvBytes, job.size)
  }

  /** The send count of a host's local rank 0. */
  ghost function LeaderCount(job: Job, h: nat): nat
    requires ValidJob(job) && h < |job.procs|
  {
    PlacedRanks(job.procs, |job.counts|, h);
    job.counts[job.procs[h][0]]
  }

  /** What host h thinks that the hosts get in stripe k. */
  ghost function SizesFor(job: Job, h: nat, k: nat): (sizes: seq<nat>)
    requires ValidJob(job) && h < |job.procs|
    ensures |sizes| == |job.procs|
  {
    HostBytes(PieceLen(LeaderCount(job, h), k, job.size), Sizes(job.procs))
  }

  ghost function StripeScripts(job: Job, k: nat): (scripts: seq<seq<Round<Segment>>>)
    requires ValidJob(job)
    ensures |scripts| == |job.procs|
    ensures forall h {:trigger ToRelative(h, job.rootHost, |job.procs|)} :: 0 <= h < |job.procs| ==>
      scripts[h] == ScatterScript(TreeOf(job), Shifted(SizesFor(job, h, k), job.rootHost), job.rootHost,
                                  ToRelative(h, job.rootHost, |job.procs|))
  {
    seq(|job.procs|, h requires 0 <= h < |job.procs| =>
      ScatterScript(TreeOf(job), Shifted(SizesFor(job, h, k), job.rootHost), job.rootHost,
                    ToRelative(h, job.rootHost, |job.procs|)))
  }

  ghost function StripesOf(job: Job, stripes: nat): (phases: seq<seq<seq<Round<Segment>>>>)
    requires ValidJob(job)
    ensures |phases| == stripes && forall k :: 0 <= k < stripes ==> phases[k] == StripeScripts(job, k)
  {
    seq(stripes, k requires 0 <= k < stripes => StripeScripts(job, k))
  }

  lemma {:induction false} PhasesInStep(job: Job, stripes: nat)
    requires ValidJob(job)
    ensures Phased(StripesOf(job, stripes), |job.procs|, Len(job))
  {
    hide StripesOf;
    forall k | 0 <= k < stripes
      ensures InStep(StripesOf(job, stripes)[k], |job.procs|, Len(job))
    {
      forall h | 0 <= h < |job.procs|
        ensures |StripeScripts(job, k)[h]| == Len(job)
      {
        assert ToRelative(h, job.rootHost, |job.procs|) < |job.procs|;
      }
    }
  }

  // ---------------------------------------------------------------- the hosts' own steps

  /** The ranks in the order in which the root packs. */
  ghost function PackOrder(job: Job): (ranks: seq<nat>)
    requires ValidJob(job)
    ensures IsPermutation(ranks, |job.counts|)
  {
    RootWalkIsPermutation(TreeOf(job), false);
    BufferOrder(job.procs, Walk(TreeOf(job), 0, false), job.rootHost, |job.counts|)
  }

  ghost function SlotsAt<T>(job: Job, sendbuf: seq<T>, k: nat): (slots: seq<seq<T>>)
    requires ValidJob(job)
    ensures |slots| == |job.counts|
  {
    var c := job.counts[job.root];
    Slots(sendbuf, |job.counts|, c, Sent(c, k, job.size), PieceLen(c, k, job.size))
  }

  ghost function Packed<T>(job: Job, sendbuf: seq<T>, k: nat): seq<T>
    requires ValidJob(job)
  {
    Flat(SlotsAt(job, sendbuf, k), PackOrder(job))
  }

  /** Every process of host h copies its slice of stripe k. */
  ghost function SliceAll<T>(job: Job, h: nat, k: nat, shared: seq<T>, mems: seq<seq<T>>): (mems': seq<seq<T>>)
    requires ValidJob(job) && h < |job.procs| && |mems| == |job.procs[h]|
    ensures |mems'| == |mems| && forall i {:trigger mems'[i]} :: 0 <= i < |mems| ==>
      job.procs[h][i] < |job.counts| &&
      mems'[i] == Sliced(mems[i], shared, i, job.counts[job.procs[h][i]], k, job.size)
  {
    PlacedRanks(job.procs, |job.counts|, h);
    seq(|mems|, i requires 0 <= i < |mems| =>
      Sliced(mems[i], shared, i, job.counts[job.procs[h][i]], k, job.size))
  }

  ghost function OwnStep<T>(job: Job, sendbuf: seq<T>, h: nat, k: nat, stage: nat, st: Node<T>): Node<T>
    requires ValidJob(job)
  {
    if stage == 0 then
      if h == job.rootHost then Host(Write(st.shared, 0, Packed(job, sendbuf, k)), st.own) else st
    else if h < |job.procs| && |st.own| == |job.procs[h]| then Host(st.shared, SliceAll(job, h, k, st.shared, st.own))
    else st
  }

  /** A receive takes any message that is not longer than it asks for. */
  ghost function ShortNet<T>(scripts: seq<seq<Round<Segment>>>): Net<Segment, seq<T>, seq<T>> {
    BufferNet<T>(scripts).(fits := (seg: Segment, m: seq<T>) => |m| <= seg.len)
  }

  ghost function ScatterPlan<T>(job: Job, sendbuf: seq<T>): (plan: Plan<Segment, seq<T>, seq<seq<T>>, seq<T>>)
    requires ValidJob(job)
    ensures IsPlan(plan) && |plan.phases| == NumStripes(job) && plan.n == |job.procs| && plan.len == Len(job)
  {
    PhasesInStep(job, NumStripes(job));
    Plan(ShortNet<T>([]), StripesOf(job, NumStripes(job)), |job.procs|, Len(job),
         (h: nat, k: nat, stage: nat, st: Node<T>) => OwnStep(job, sendbuf, h, k, stage, st))
  }

  // ---------------------------------------------------------------- sends and receives pair up, whatever the counts

  /** Whom a host sends to and receives from does not depend on the sizes. */
  lemma {:induction false} RoundPeers(sh: Shape, a: seq<nat>, b: seq<nat>, root: nat, v: nat, r: nat)
    requires ValidShape(sh) && |a| == |b| == sh.n && root < sh.n && v < sh.n && r + 1 < sh.n
    ensures SamePeer(NodeRound(sh, a, root, v, r).out, NodeRound(sh, b, root, v, r).out)
    ensures SamePeer(NodeRound(sh, a, root, v, r).inc, NodeRound(sh, b, root, v, r).inc)
  {
    hide ScatterBytes, Ahead, Bytes, Children;
  }

  /** The scatter of stripe k as it is when all hosts go by the same sizes. */
  ghost function UniformScripts(job: Job, sizes: seq<nat>): (scripts: seq<seq<Round<Segment>>>)
    requires ValidJob(job) && |sizes| == |job.procs|
    ensures |scripts| == |job.procs|
    ensures forall h {:trigger ToRelative(h, job.rootHost, |job.procs|)} :: 0 <= h < |job.procs| ==>
      scripts[h] == ScatterScript(TreeOf(job), Shifted(sizes, job.rootHost), job.rootHost,
                                  ToRelative(h, job.rootHost, |job.procs|))
  {
    seq(|job.procs|, h requires 0 <= h < |job.procs| =>
      ScatterScript(TreeOf(job), Shifted(sizes, job.rootHost), job.rootHost, ToRelative(h, job.rootHost, |job.procs|)))
  }

  lemma {:induction false} ScriptPeers(job: Job, sizes: seq<nat>, k: nat, h: nat, r: nat)
    requires ValidJob(job) && |sizes| == |job.procs| && h < |job.procs|
    ensures var a, b := RoundAt(UniformScripts(job, sizes)[h], r), RoundAt(StripeScripts(job, k)[h], r);
      SamePeer(a.out, b.out) && SamePeer(a.inc, b.inc)
  {
    hide NodeRound, SizesFor, IsPlacement;
    assert ToRelative(h, job.rootHost, |job.procs|) < |job.procs|;
    if r < Len(job) {
      RoundPeers(TreeOf(job), Shifted(sizes, job.rootHost), Shifted(SizesFor(job, h, k), job.rootHost), job.rootHost,
                 ToRelative(h, job.rootHost, |job.procs|), r);
    }
  }

  lemma {:induction false} StripePairs<T>(job: Job, sendbuf: seq<T>, k: nat)
    requires ValidJob(job) && k < NumStripes(job)
    ensures Consistent(PhaseOf(ScatterPlan(job, sendbuf), k))
  {
    hide ScatterScript, SizesFor, IsPlacement, RoundAt, NumStripes;
    var net, zeros := PhaseOf(ScatterPlan(job, sendbuf), k), seq(|job.procs|, h => 0);
    assert net.scripts == StripeScripts(job, k);
    var same := BufferNet<T>(UniformScripts(job, zeros));
    assert RunsScatter(same, TreeOf(job), job.rootHost, zeros);
    ScatterPairs(same, TreeOf(job), job.rootHost, zeros);
    forall h, r: nat | 0 <= h < |job.procs|
      ensures SamePeer(OutAt(same, h, r), OutAt(net, h, r)) && SamePeer(InAt(same, h, r), InAt(net, h, r))
    {
      ScriptPeers(job, zeros, k, h, r);
    }
    SamePeersPair(same, net);
  }

  // ---------------------------------------------------------------- right counts

  /** The process's count says what it expects, or more while the expected bytes fill whole stripes. */
  predicate RightCount(sendBytes: nat, recvBytes: nat, size: nat)
    requires size > 0
  {
    sendBytes == recvBytes || (sendBytes > recvBytes > 0 && recvBytes % size == 0)
  }

  predicate RightCounts(job: Job)
    requires job.size > 0
  {
    forall r :: 0 <= r < |job.counts| ==> RightCount(job.counts[r], job.recvBytes, job.size)
  }

  /** With the right count a process takes in every stripe what one with the exact count takes. */
  lemma {:induction false} SameShare(c: nat, recvBytes: nat, size: nat, k: nat)
    requires size > 0 && RightCount(c, recvBytes, size) && k < StripesFor(recvBytes, size)
    ensures PieceLen(c, k, size) == PieceLen(recvBytes, k, size) && Sent(c, k, size) == Sent(recvBytes, k, size)
  {
    if c != recvBytes {
      var n := StripesFor(recvBytes, size);
      CopiesAllIff(c, recvBytes, size);
      CopiesAllIff(recvBytes, recvBytes, size);
      StripesSuffice(recvBytes, size);
      assert recvBytes == n * size;
      assert (k + 1) * size <= n * size by { Multiples(k + 1, n, size); }
      assert (k + 1) * size == k * size + size;
    }
  }

  lemma {:induction false} Multiples(a: nat, b: nat, size: nat)
    requires a <= b
    ensures a * size <= b * size
  {
  }

  /** What every process gets in stripe k. */
  ghost function Share(job: Job, k: nat): nat
    requires ValidJob(job)
  {
    PieceLen(job.recvBytes, k, job.size)
  }

  ghost predicate Fits<T>(job: Job, sendbuf: seq<T>, init: seq<Node<T>>)
    requires ValidJob(job)
  {
    && |sendbuf| == |job.counts| * job.counts[job.root] && |init| == |job.procs|
    && HasRoom(init, |job.counts| * job.size)
    && (forall h :: 0 <= h < |job.procs| ==> |init[h].own| == |job.procs[h]|)
    && (forall h, i {:trigger init[h].own[i]} :: 0 <= h < |job.procs| && 0 <= i < |job.procs[h]| ==>
          |init[h].own[i]| >= job.recvBytes)
  }

  lemma {:induction false} SlotPart<T>(sendbuf: seq<T>, r: nat, n: nat, perProc: nat, copied: nat, len: nat, total: nat)
    requires r < n && |sendbuf| == n * perProc && copied + len <= total <= perProc
    ensures var mine := Read(sendbuf, Segment(r * perProc, total));
      |mine| == total && Slot(sendbuf, r, perProc, copied, len) == Read(mine, Segment(copied, len))
    ensures |Slot(sendbuf, r, perProc, copied, len)| == len && r * perProc + total <= |sendbuf|
  {
    hide Slots;
    SlotInside(sendbuf, r, n, perProc, 0, total);
    SlotInside(sendbuf, r, n, perProc, copied, len);
    PartOfPart(sendbuf, r * perProc, total, copied, len);
  }

  /** The bytes for rank r. */
  ghost function Mine<T>(job: Job, sendbuf: seq<T>, r: nat): seq<T>
    requires ValidJob(job)
  {
    Read(sendbuf, Segment(r * job.counts[job.root], job.recvBytes))
  }

  lemma {:induction false} ShareInside(bytes: nat, k: nat, size: nat)
    ensures Sent(bytes, k, size) + PieceLen(bytes, k, size) <= bytes && PieceLen(bytes, k, size) <= size
  {
  }

  /** With right counts the root packs equal shares. */
  lemma {:induction false} EqualShares<T>(job: Job, sendbuf: seq<T>, k: nat, r: nat)
    requires ValidJob(job) && RightCounts(job) && k < NumStripes(job) && r < |job.counts|
    requires |sendbuf| == |job.counts| * job.counts[job.root]
    ensures |SlotsAt(job, sendbuf, k)[r]| == Share(job, k) <= job.size && |Mine(job, sendbuf, r)| == job.recvBytes
    ensures SlotsAt(job, sendbuf, k)[r] ==
      Read(Mine(job, sendbuf, r), Segment(Sent(job.recvBytes, k, job.size), Share(job, k)))
  {
    hide IsPlacement, Sent, PieceLen, Slot, Read;
    var c := job.counts[job.root];
    SameShare(c, job.recvBytes, job.size, k);
    ShareInside(job.recvBytes, k, job.size);
    SlotPart(sendbuf, r, |job.counts|, c, Sent(job.recvBytes, k, job.size), Share(job, k), job.recvBytes);
  }

  lemma {:induction false} ShareSizes<T>(slots: seq<seq<T>>, procs: seq<seq<nat>>, len: nat)
    requires forall h :: 0 <= h < |procs| ==> InRange(procs[h], |slots|)
    requires forall r :: 0 <= r < |slots| ==> |slots[r]| == len
    ensures Sizes(HostData(slots, procs)) == HostBytes(len, Sizes(procs))
  {
    hide Flat, Bytes;
    forall h | 0 <= h < |procs|
      ensures |HostData(slots, procs)[h]| == len * |procs[h]|
    {
      FlatLength(slots, procs[h]);
      EqualBytes(Sizes(slots), procs[h], len);
    }
  }

  lemma {:induction false} SameSizes<T>(job: Job, sendbuf: seq<T>, k: nat, h: nat)
    requires ValidJob(job) && RightCounts(job) && k < NumStripes(job) && h < |job.procs|
    requires |sendbuf| == |job.counts| * job.counts[job.root]
    ensures SizesFor(job, h, k) == Sizes(HostData(SlotsAt(job, sendbuf, k), job.procs))
  {
    hide SlotsAt, HostBytes, PieceLen;
    PlacedRanks(job.procs, |job.counts|, h);
    SameShare(LeaderCount(job, h), job.recvBytes, job.size, k);
    forall r | 0 <= r < |job.counts|
      ensures |SlotsAt(job, sendbuf, k)[r]| == Share(job, k)
    {
      EqualShares(job, sendbuf, k, r);
    }
    ShareSizes(SlotsAt(job, sendbuf, k), job.procs, Share(job, k));
  }

  /** What the hosts get in stripe k. */
  ghost function StripeData<T>(job: Job, sendbuf: seq<T>, k: nat): (d: seq<seq<T>>)
    requires ValidJob(job)
    ensures |d| == |job.procs|
  {
    HostData(SlotsAt(job, sendbuf, k), job.procs)
  }

  /** With right counts stripe k is an interhost scatter of the shares. */
  lemma {:induction false} StripeIsScatter<T>(job: Job, sendbuf: seq<T>, k: nat)
    requires ValidJob(job) && RightCounts(job) && k < NumStripes(job)
    requires |sendbuf| == |job.counts| * job.counts[job.root]
    ensures var net := BufferNet<T>(StripeScripts(job, k));
      RunsScatter(net, TreeOf(job), job.rootHost, Sizes(StripeData(job, sendbuf, k))) && Consistent(net)
    ensures PhaseOf(ScatterPlan(job, sendbuf), k) == ShortNet<T>(StripeScripts(job, k))
  {
    hide ScatterScript, SizesFor, IsPlacement, SlotsAt, HostData, NumStripes, RightCounts;
    var net := BufferNet<T>(StripeScripts(job, k));
    forall h {:trigger ToRelative(h, job.rootHost, |job.procs|)} | 0 <= h < |job.procs|
      ensures SizesFor(job, h, k) == Sizes(StripeData(job, sendbuf, k))
    {
      SameSizes(job, sendbuf, k, h);
    }
    assert RunsScatter(net, TreeOf(job), job.rootHost, Sizes(StripeData(job, sendbuf, k)));
    ScatterPairs(net, TreeOf(job), job.rootHost, Sizes(StripeData(job, sendbuf, k)));
  }

  // ---------------------------------------------------------------- one stripe

  /** `t` is the round-by-round run of all stripes. */
  ghost predicate StripedRun<T>(job: Job, sendbuf: seq<T>, init: seq<Node<T>>, t: seq<seq<Node<T>>>)
    requires ValidJob(job)
  {
    && RunOf(ScatterPlan(job, sendbuf), init, t) && (forall r :: 0 <= r < |t| ==> |t[r]| == |job.procs|)
    && AllConsistent(ScatterPlan(job, sendbuf))
  }

  /** The shared buffers in the rounds of messages of stripe k. */
  ghost function StripeAt<T>(job: Job, sendbuf: seq<T>, t: seq<seq<Node<T>>>, k: nat): (u: seq<seq<seq<T>>>)
    requires ValidJob(job) && k < NumStripes(job) && Base(k + 1, Len(job)) < |t|
    requires forall r :: 0 <= r < |t| ==> |t[r]| == |job.procs|
    ensures |u| == Len(job) + 1 && forall j :: 0 <= j < |u| ==> |u[j]| == |job.procs|
    ensures forall j, h {:trigger u[j][h]} :: 0 <= j < |u| && 0 <= h < |job.procs| ==>
      u[j][h] == t[Base(k, Len(job)) + 1 + j][h].shared
  {
    Slice(ScatterPlan(job, sendbuf), t, k)
  }

  lemma {:induction false} OwnStepsOf<T>(job: Job, sendbuf: seq<T>, init: seq<Node<T>>, t: seq<seq<Node<T>>>, k: nat,
                                         h: nat)
    requires ValidJob(job) && StripedRun(job, sendbuf, init, t) && k < NumStripes(job) && h < |job.procs|
    requires Base(k + 1, Len(job)) < |t|
    ensures var b, len := Base(k, Len(job)), Len(job);
      && t[b + 1][h] == OwnStep(job, sendbuf, h, k, 0, t[b][h])
      && t[b + len + 2][h] == OwnStep(job, sendbuf, h, k, 1, t[b + len + 1][h])
  {
    hide RunOf, AllConsistent, ValidJob, IsPlan, OwnStep, NumStripes;
    OwnSteps(ScatterPlan(job, sendbuf), init, t, k, h);
  }

  /** A message is taken as it comes, so the run is one with receives of exact length too. */
  lemma {:induction false} ShortTrace<T>(scripts: seq<seq<Round<Segment>>>, init: seq<seq<T>>, u: seq<seq<seq<T>>>)
    requires Consistent(ShortNet<T>(scripts)) && Consistent(BufferNet<T>(scripts)) && |init| == |scripts|
    requires IsTrace(ShortNet<T>(scripts), init, u)
    ensures IsTrace(BufferNet<T>(scripts), init, u)
  {
    hide Consistent, Read, Write;
    var short, net := ShortNet<T>(scripts), BufferNet<T>(scripts);
    forall r | 0 <= r < |u| - 1
      ensures StepAt(net, u, r)
    {
      forall p | 0 <= p < |scripts|
        ensures u[r + 1][p] == Next(net, u[r], r, p)
      {
        assert StepAt(short, u, r);
        assert u[r + 1][p] == Next(short, u[r], r, p);
      }
    }
  }

  lemma {:induction false} StripeTrace<T>(job: Job, sendbuf: seq<T>, init: seq<Node<T>>, t: seq<seq<Node<T>>>, k: nat)
    requires ValidJob(job) && StripedRun(job, sendbuf, init, t) && k < NumStripes(job) && Base(k + 1, Len(job)) < |t|
    requires RightCounts(job) && |sendbuf| == |job.counts| * job.counts[job.root]
    ensures var net, u := BufferNet<T>(StripeScripts(job, k)), StripeAt(job, sendbuf, t, k);
      && RunsScatter(net, TreeOf(job), job.rootHost, Sizes(StripeData(job, sendbuf, k)))
      && Consistent(net) && IsTrace(net, u[0], u) && InStep(net.scripts, |job.procs|, Len(job))
      && PhaseOf(ScatterPlan(job, sendbuf), k) == net.(fits := ShortNet<T>([]).fits)
      && Consistent(PhaseOf(ScatterPlan(job, sendbuf), k))
  {
    hide RunOf, AllConsistent, IsTrace, Consistent, ScatterPlan, RunsScatter, Slice, NumStripes, StripeScripts;
    SliceIsTrace(ScatterPlan(job, sendbuf), init, t, k);
    StripeIsScatter(job, sendbuf, k);
    ShortTrace(StripeScripts(job, k), StripeAt(job, sendbuf, t, k)[0], StripeAt(job, sendbuf, t, k));
  }

  lemma {:induction false} StripeRoom<T>(job: Job, sendbuf: seq<T>, k: nat)
    requires ValidJob(job) && RightCounts(job) && k < NumStripes(job)
    requires |sendbuf| == |job.counts| * job.counts[job.root]
    ensures var data := StripeData(job, sendbuf, k);
      && Bytes(Sizes(Shifted(data, job.rootHost)), Ascending(|job.procs|)) <= |job.counts| * job.size
      && IsPermutation(Walk(TreeOf(job), 0, false), |job.procs|)
      && Flat(Shifted(data, job.rootHost), Walk(TreeOf(job), 0, false)) == Packed(job, sendbuf, k)
      && |Packed(job, sendbuf, k)| <= |job.counts| * job.size
  {
    hide Flat, Bytes, HostData, SlotsAt, Walk, Shifted, NumStripes, RightCounts, IsPlacement, BufferOrder;
    var slots, sh := SlotsAt(job, sendbuf, k), TreeOf(job);
    forall r | 0 <= r < |slots|
      ensures |slots[r]| <= job.size
    {
      EqualShares(job, sendbuf, k, r);
    }
    TotalFits(slots, job.procs, job.rootHost, job.size);
    RootWalkIsPermutation(sh, false);
    ReadersFind(slots, job.procs, Walk(sh, 0, false), job.rootHost);
    var data := Shifted(HostData(slots, job.procs), job.rootHost);
    FlatLength(data, Walk(sh, 0, false));
    BytesOfPermutation(Sizes(data), Walk(sh, 0, false), sh.n);
  }

  /** When the root has packed, its host's buffer begins with the shares of the stripe. */
  lemma {:induction false} StripeStarts<T>(job: Job, sendbuf: seq<T>, init: seq<Node<T>>, t: seq<seq<Node<T>>>, k: nat)
    requires ValidJob(job) && StripedRun(job, sendbuf, init, t) && k < NumStripes(job) && Base(k + 1, Len(job)) < |t|
    requires RightCounts(job) && |sendbuf| == |job.counts| * job.counts[job.root]
    requires HasRoom(t[Base(k, Len(job))], |job.counts| * job.size)
    ensures AllHold(TreeOf(job), job.rootHost, Shifted(StripeData(job, sendbuf, k), job.rootHost),
                    StripeAt(job, sendbuf, t, k)[0], 0)
    ensures forall h :: 0 <= h < |job.procs| ==>
      |StripeAt(job, sendbuf, t, k)[0][h]| == |t[Base(k, Len(job))][h].shared|
  {
    hide RunOf, AllConsistent, Bytes, Flat, Walk, StripeData, Packed, ScatterPlan, IsPlacement, NumStripes, RightCounts,
      AllHold, Slice;
    StripeRoom(job, sendbuf, k);
    var b, u0, data := Base(k, Len(job)), StripeAt(job, sendbuf, t, k)[0], StripeData(job, sendbuf, k);
    forall h | 0 <= h < |job.procs|
      ensures |u0[h]| == |t[b][h].shared| >= |job.counts| * job.size
    {
      OwnStepsOf(job, sendbuf, init, t, k, h);
    }
    OwnStepsOf(job, sendbuf, init, t, k, job.rootHost);
    WriteFront(t[b][job.rootHost].shared, Packed(job, sendbuf, k));
    StartHolds(TreeOf(job), job.rootHost, data, u0);
  }

  /** Every child of the stripe expects what its parent sends. */
  lemma {:induction false} StripeAccepts<T>(job: Job, sendbuf: seq<T>, init: seq<Node<T>>, t: seq<seq<Node<T>>>, k: nat)
    requires ValidJob(job) && StripedRun(job, sendbuf, init, t) && k < NumStripes(job) && Base(k + 1, Len(job)) < |t|
    requires RightCounts(job) && |sendbuf| == |job.counts| * job.counts[job.root]
    requires AllHold(TreeOf(job), job.rootHost, Shifted(StripeData(job, sendbuf, k), job.rootHost),
                     StripeAt(job, sendbuf, t, k)[0], 0)
    ensures Consistent(PhaseOf(ScatterPlan(job, sendbuf), k))
    ensures InStep(ScatterPlan(job, sendbuf).phases[k], |job.procs|, Len(job))
    ensures PhaseAccepts(ScatterPlan(job, sendbuf), t, k)
  {
    hide RunOf, AllConsistent, IsTrace, Consistent, ScatterPlan, RunsScatter, AllHold, StripeData, StripeScripts,
      NumStripes, RightCounts, Read;
    StripeTrace(job, sendbuf, init, t, k);
    var net, short, u := BufferNet<T>(StripeScripts(job, k)), PhaseOf(ScatterPlan(job, sendbuf), k),
      StripeAt(job, sendbuf, t, k);
    forall h, j: nat | 0 <= h < |job.procs| && j < Len(job) && InAt(short, h, j).Some?
      ensures AcceptsIn(short, u, h, j)
    {
      TraceHolds(net, u[0], u, TreeOf(job), job.rootHost, StripeData(job, sendbuf, k), j);
      RoundHolds(net, u[0], u, TreeOf(job), job.rootHost, StripeData(job, sendbuf, k), j, h);
      Paired(net, h, j);
    }
  }

  /** After the messages every host has its shares. */
  lemma {:induction false} StripeEnds<T>(job: Job, sendbuf: seq<T>, init: seq<Node<T>>, t: seq<seq<Node<T>>>, k: nat,
                                         h: nat)
    requires ValidJob(job) && StripedRun(job, sendbuf, init, t) && k < NumStripes(job) && Base(k + 1, Len(job)) < |t|
    requires RightCounts(job) && |sendbuf| == |job.counts| * job.counts[job.root] && h < |job.procs|
    requires AllHold(TreeOf(job), job.rootHost, Shifted(StripeData(job, sendbuf, k), job.rootHost),
                     StripeAt(job, sendbuf, t, k)[0], 0)
    ensures StripeData(job, sendbuf, k)[h] <= StripeAt(job, sendbuf, t, k)[Len(job)][h]
  {
    hide RunOf, AllConsistent, IsTrace, Consistent, ScatterPlan, RunsScatter, AllHold, StripeData, StripeScripts,
      NumStripes, RightCounts, TreeData, Bytes, BufferNet, IsPlacement;
    StripeTrace(job, sendbuf, init, t, k);
    var net, u, n := BufferNet<T>(StripeScripts(job, k)), StripeAt(job, sendbuf, t, k), |job.procs|;
    var data := Shifted(StripeData(job, sendbuf, k), job.rootHost);
    TraceHolds(net, u[0], u, TreeOf(job), job.rootHost, StripeData(job, sendbuf, k), n - 1);
    HeldBy(TreeOf(job), job.rootHost, data, u[n - 1], n - 1, h);
    ModuloForms(h, job.rootHost, n);
  }

  lemma {:induction false} StripeLengths<T>(job: Job, sendbuf: seq<T>, init: seq<Node<T>>, t: seq<seq<Node<T>>>, k: nat,
                                            h: nat)
    requires ValidJob(job) && StripedRun(job, sendbuf, init, t) && k < NumStripes(job) && Base(k + 1, Len(job)) < |t|
    requires RightCounts(job) && |sendbuf| == |job.counts| * job.counts[job.root] && h < |job.procs|
    ensures |StripeAt(job, sendbuf, t, k)[Len(job)][h]| == |StripeAt(job, sendbuf, t, k)[0][h]|
  {
    hide RunOf, AllConsistent, IsTrace, Consistent, ScatterPlan, RunsScatter, StripeData, StripeScripts, NumStripes,
      RightCounts, IsPlacement, Read, Write;
    StripeTrace(job, sendbuf, init, t, k);
    var net, u := BufferNet<T>(StripeScripts(job, k)), StripeAt(job, sendbuf, t, k);
    TraceLengths(net, u[0], u, Len(job), h);
  }

  lemma {:induction false} PieceIs<T>(d: seq<T>, k: nat, size: nat)
    ensures |Before(d, k, size)| == Sent(|d|, k, size)
    ensures Piece(d, k, size) == Read(d, Segment(Sent(|d|, k, size), PieceLen(|d|, k, size)))
  {
  }

  /** The i-th process of host h has the bytes for it from the first k stripes. */
  ghost predicate ProcReady<T>(job: Job, sendbuf: seq<T>, now: Node<T>, before: seq<Node<T>>, h: nat, i: nat, k: nat)
    requires ValidJob(job) && Fits(job, sendbuf, before) && h < |job.procs| && i < |job.procs[h]|
  {
    && |now.own| == |job.procs[h]|
    && now.own[i] == Write(before[h].own[i], 0, Before(Mine(job, sendbuf, job.procs[h][i]), k, job.size))
  }

  ghost predicate Ready<T>(job: Job, sendbuf: seq<T>, hosts: seq<Node<T>>, before: seq<Node<T>>, k: nat)
    requires ValidJob(job) && Fits(job, sendbuf, before)
  {
    && |hosts| == |job.procs| && HasRoom(hosts, |job.counts| * job.size)
    && (forall h :: 0 <= h < |job.procs| ==> |hosts[h].own| == |job.procs[h]|)
    && (forall h, i {:trigger ProcReady(job, sendbuf, hosts[h], before, h, i, k)} ::
          0 <= h < |job.procs| && 0 <= i < |job.procs[h]| ==> ProcReady(job, sendbuf, hosts[h], before, h, i, k))
  }

  /** What a process copies in stripe k is the k-th piece of the bytes for it. */
  lemma {:induction false} SliceIsPiece<T>(job: Job, sendbuf: seq<T>, k: nat, h: nat, i: nat, shared: seq<T>)
    requires ValidJob(job) && RightCounts(job) && k < NumStripes(job) && h < |job.procs| && i < |job.procs[h]|
    requires |sendbuf| == |job.counts| * job.counts[job.root] && StripeData(job, sendbuf, k)[h] <= shared
    ensures job.procs[h][i] < |job.counts|
    ensures var r, share := job.procs[h][i], Share(job, k);
      && PieceLen(job.counts[r], k, job.size) == share
      && Sent(job.counts[r], k, job.size) == |Before(Mine(job, sendbuf, r), k, job.size)|
      && Read(shared, SliceOf(i, share)) == Piece(Mine(job, sendbuf, r), k, job.size)
  {
    hide Flat, SlotsAt, Read, Piece, Before, Sent, PieceLen, Mine, IsPlacement;
    PlacedRanks(job.procs, |job.counts|, h);
    var r, slots := job.procs[h][i], SlotsAt(job, sendbuf, k);
    SameShare(job.counts[r], job.recvBytes, job.size, k);
    forall q | 0 <= q < |slots|
      ensures |slots[q]| == Share(job, k)
    {
      EqualShares(job, sendbuf, k, q);
    }
    OwnSlice(slots, job.procs[h], i, Share(job, k), shared);
    EqualShares(job, sendbuf, k, r);
    PieceIs(Mine(job, sendbuf, r), k, job.size);
  }

  /** Where the slice is in the shared buffer, and where its bytes are in the root's send buffer. */
  lemma {:induction false} SliceBytes<T>(job: Job, sendbuf: seq<T>, k: nat, h: nat, i: nat, shared: seq<T>)
    returns (at: nat, from: nat)
    requires ValidJob(job) && RightCounts(job) && k < NumStripes(job) && h < |job.procs| && i < |job.procs[h]|
    requires |sendbuf| == |job.counts| * job.counts[job.root] && StripeData(job, sendbuf, k)[h] <= shared
    ensures at == i * Share(job, k) && from == job.procs[h][i] * job.counts[job.root] + k * job.size
    ensures SameBytes(shared, at, sendbuf, from, Share(job, k))
  {
    hide StripeData, RightCounts, NumStripes, Read, Piece, Before, Sent, PieceLen, Mine, IsPlacement, SameBytes;
    SliceIsPiece(job, sendbuf, k, h, i, shared);
    var r, share := job.procs[h][i], Share(job, k);
    from := PieceBytes(job, sendbuf, r, k);
    at := i * share;
    assert share == 0 ==> at == 0;
    SliceReads(shared, at, Piece(Mine(job, sendbuf, r), k, job.size), sendbuf, from, share);
  }

  lemma {:induction false} SliceReads<T>(a: seq<T>, at: nat, p: seq<T>, b: seq<T>, from: nat, len: nat)
    requires |p| == len && Read(a, Segment(at, len)) == p && Read(b, Segment(from, len)) == p
    requires from + len <= |b| && (len == 0 ==> at == 0)
    ensures SameBytes(a, at, b, from, len)
  {
  }

  /** The k-th piece of the bytes for rank r, where it is in the send buffer. */
  lemma {:induction false} PieceBytes<T>(job: Job, sendbuf: seq<T>, r: nat, k: nat) returns (from: nat)
    requires ValidJob(job) && k < NumStripes(job) && r < |job.counts|
    requires |sendbuf| == |job.counts| * job.counts[job.root]
    ensures from == r * job.counts[job.root] + k * job.size && from + Share(job, k) <= |sendbuf|
    ensures Read(sendbuf, Segment(from, Share(job, k))) == Piece(Mine(job, sendbuf, r), k, job.size)
    ensures |Piece(Mine(job, sendbuf, r), k, job.size)| == Share(job, k)
  {
    hide IsPlacement, StripesFor, Piece, Read, Sent, PieceLen, Slot;
    var c := job.counts[job.root];
    from := r * c + k * job.size;
    SlotInside(sendbuf, r, |job.counts|, c, 0, job.recvBytes);
    StripeStart(job.recvBytes, k, job.size);
    PieceOfPart(sendbuf, r * c, job.recvBytes, k, job.size);
  }

  lemma {:induction false} PieceOfPart<T>(sendbuf: seq<T>, start: nat, total: nat, k: nat, size: nat)
    requires start + total <= |sendbuf|
    ensures var sent, len := Sent(total, k, size), PieceLen(total, k, size);
      var piece := Piece(Read(sendbuf, Segment(start, total)), k, size);
      start + sent + len <= |sendbuf| && Read(sendbuf, Segment(start + sent, len)) == piece && |piece| == len
  {
    hide Sent, PieceLen, Piece, Before;
    ShareInside(total, k, size);
    PieceIs(sendbuf[start..start + total], k, size);
    PartOfPart(sendbuf, start, total, Sent(total, k, size), PieceLen(total, k, size));
  }

  /** A stripe begins where all before it were whole. */
  lemma {:induction false} StripeStart(bytes: nat, k: nat, size: nat)
    requires size > 0 && k < StripesFor(bytes, size)
    ensures Sent(bytes, k, size) == k * size
  {
    hide StripesFor;
    StripesSuffice(bytes, size);
    if bytes == 0 {
      OneStripe(size);
    } else {
      Scaled(k, StripesFor(bytes, size) - 1, size);
    }
  }

  lemma {:induction false} OneStripe(size: nat)
    requires size > 0
    ensures StripesFor(0, size) == 1 && 0 * size == 0
  {
  }

  lemma {:induction false} ProcDone<T>(job: Job, sendbuf: seq<T>, init: seq<Node<T>>, t: seq<seq<Node<T>>>,
                                       before: seq<Node<T>>, k: nat, h: nat, i: nat)
    requires ValidJob(job) && StripedRun(job, sendbuf, init, t) && k < NumStripes(job) && Base(k + 1, Len(job)) < |t|
    requires RightCounts(job) && Fits(job, sendbuf, before) && h < |job.procs| && i < |job.procs[h]|
    requires ProcReady(job, sendbuf, t[Base(k, Len(job))][h], before, h, i, k)
    requires StripeData(job, sendbuf, k)[h] <= StripeAt(job, sendbuf, t, k)[Len(job)][h]
    ensures ProcReady(job, sendbuf, t[Base(k + 1, Len(job))][h], before, h, i, k + 1)
  {
    hide RunOf, AllConsistent, ScatterPlan, StripeData, RightCounts, IsPlacement, Write, Read, Before, Piece, PieceLen,
      Sent, Mine, NumStripes, HasRoom, Packed, Slice;
    var b, len, r := Base(k, Len(job)), Len(job), job.procs[h][i];
    OwnStepsOf(job, sendbuf, init, t, k, h);
    OwnStays(ScatterPlan(job, sendbuf), init, t, k, len, h);
    var st, mine := t[b + 1 + len][h], Mine(job, sendbuf, r);
    assert st.shared == StripeAt(job, sendbuf, t, k)[len][h];
    SliceIsPiece(job, sendbuf, k, h, i, st.shared);
    PiecesJoin(mine, k, job.size);
    EqualShares(job, sendbuf, k, r);
    assert |before[h].own[i]| >= job.recvBytes;
    WriteNext(before[h].own[i], Before(mine, k, job.size), Piece(mine, k, job.size));
  }

  lemma {:induction false} StripeDone<T>(job: Job, sendbuf: seq<T>, init: seq<Node<T>>, t: seq<seq<Node<T>>>,
                                         before: seq<Node<T>>, k: nat)
    requires ValidJob(job) && StripedRun(job, sendbuf, init, t) && k < NumStripes(job) && Base(k + 1, Len(job)) < |t|
    requires RightCounts(job) && Fits(job, sendbuf, before)
    requires Ready(job, sendbuf, t[Base(k, Len(job))], before, k)
    ensures Ready(job, sendbuf, t[Base(k + 1, Len(job))], before, k + 1)
    ensures Consistent(PhaseOf(ScatterPlan(job, sendbuf), k))
    ensures InStep(ScatterPlan(job, sendbuf).phases[k], |job.procs|, Len(job))
    ensures PhaseAccepts(ScatterPlan(job, sendbuf), t, k)
  {
    hide RunOf, AllConsistent, Consistent, ScatterPlan, AllHold, ProcReady, PhaseAccepts, StripeData, IsPlacement,
      SliceAll, RightCounts, NumStripes, Packed, Slice, Write;
    StripeStarts(job, sendbuf, init, t, k);
    StripeAccepts(job, sendbuf, init, t, k);
    var next, k' := t[Base(k + 1, Len(job))], k + 1;
    forall h | 0 <= h < |job.procs|
      ensures |next[h].own| == |job.procs[h]| && |next[h].shared| >= |job.counts| * job.size
    {
      OwnStepsOf(job, sendbuf, init, t, k, h);
      OwnStays(ScatterPlan(job, sendbuf), init, t, k, Len(job), h);
      StripeLengths(job, sendbuf, init, t, k, h);
    }
    forall h, i | 0 <= h < |job.procs| && 0 <= i < |job.procs[h]|
      ensures ProcReady(job, sendbuf, next[h], before, h, i, k')
    {
      assert ProcReady(job, sendbuf, t[Base(k, Len(job))][h], before, h, i, k);
      StripeEnds(job, sendbuf, init, t, k, h);
      ProcDone(job, sendbuf, init, t, before, k, h, i);
    }
  }

  // ---------------------------------------------------------------- the collective

  lemma {:induction false} AllStripes<T>(job: Job, sendbuf: seq<T>, init: seq<Node<T>>, t: seq<seq<Node<T>>>, k: nat)
    requires ValidJob(job) && StripedRun(job, sendbuf, init, t) && k <= NumStripes(job)
    requires RightCounts(job) && Fits(job, sendbuf, init) && Ready(job, sendbuf, init, init, 0)
    ensures Base(k, Len(job)) < |t| && Ready(job, sendbuf, t[Base(k, Len(job))], init, k)
    decreases k
  {
    hide AllConsistent, ScatterPlan, Ready, Fits, IsPlacement, NumStripes, RightCounts;
    BaseMonotone(k, NumStripes(job), Len(job));
    if k > 0 {
      AllStripes(job, sendbuf, init, t, k - 1);
      StripeDone(job, sendbuf, init, t, init, k - 1);
    } else {
      TraceStart(PhaseNet(ScatterPlan(job, sendbuf)), init, t);
    }
  }

  lemma {:induction false} ScatterPlanPairs<T>(job: Job, sendbuf: seq<T>)
    requires ValidJob(job)
    ensures AllConsistent(ScatterPlan(job, sendbuf))
  {
    hide ScatterPlan, IsPlacement, Consistent, NumStripes;
    forall k | 0 <= k < NumStripes(job)
      ensures Consistent(PhaseOf(ScatterPlan(job, sendbuf), k))
    {
      StripePairs(job, sendbuf, k);
    }
  }

  lemma {:induction false} RunIsStriped<T>(job: Job, sendbuf: seq<T>, init: seq<Node<T>>) returns (t: seq<seq<Node<T>>>)
    requires ValidJob(job) && |init| == |job.procs|
    ensures StripedRun(job, sendbuf, init, t) && Consistent(PhaseNet(ScatterPlan(job, sendbuf)))
    ensures t == Trace(PhaseNet(ScatterPlan(job, sendbuf)), init)
    ensures MaxLength(PhaseNet(ScatterPlan(job, sendbuf)).scripts) == Base(NumStripes(job), Len(job))
  {
    hide ScatterPlan, IsPlacement, Consistent, IsTrace, NumStripes, AllConsistent;
    ScatterPlanPairs(job, sendbuf);
    t := TheRun(ScatterPlan(job, sendbuf), init);
    forall r | 0 <= r < |t|
      ensures |t[r]| == |job.procs|
    {
      TraceShape(PhaseNet(ScatterPlan(job, sendbuf)), init, t, r);
    }
  }

  lemma {:induction false} ReadyAtStart<T>(job: Job, sendbuf: seq<T>, init: seq<Node<T>>)
    requires ValidJob(job) && Fits(job, sendbuf, init)
    ensures Ready(job, sendbuf, init, init, 0)
  {
    hide IsPlacement, HasRoom, Write, Before, Mine;
    forall h, i | 0 <= h < |job.procs| && 0 <= i < |job.procs[h]|
      ensures ProcReady(job, sendbuf, init[h], init, h, i, 0)
    {
      PiecesJoin(Mine(job, sendbuf, job.procs[h][i]), 0, job.size);
      NothingWritten(init[h].own[i]);
    }
  }

  lemma {:induction false} StripedRunScatters<T>(job: Job, sendbuf: seq<T>, init: seq<Node<T>>, t: seq<seq<Node<T>>>)
    requires ValidJob(job) && RightCounts(job) && Fits(job, sendbuf, init)
    requires StripedRun(job, sendbuf, init, t) && Consistent(PhaseNet(ScatterPlan(job, sendbuf)))
    requires t == Trace(PhaseNet(ScatterPlan(job, sendbuf)), init)
    requires MaxLength(PhaseNet(ScatterPlan(job, sendbuf)).scripts) == Base(NumStripes(job), Len(job))
    ensures Accepting(PhaseNet(ScatterPlan(job, sendbuf)), init)
    ensures Base(NumStripes(job), Len(job)) < |t|
    ensures Ready(job, sendbuf, t[Base(NumStripes(job), Len(job))], init, NumStripes(job))
  {
    hide AllConsistent, ScatterPlan, IsPlacement, Consistent, RunOf, PhaseAccepts, Ready, HasRoom, NumStripes,
      RightCounts;
    ReadyAtStart(job, sendbuf, init);
    forall k | 0 <= k < NumStripes(job)
      ensures Consistent(PhaseOf(ScatterPlan(job, sendbuf), k))
      ensures InStep(ScatterPlan(job, sendbuf).phases[k], |job.procs|, Len(job))
      ensures Base(k, Len(job)) + Len(job) + 1 < |t|
      ensures PhaseAccepts(ScatterPlan(job, sendbuf), t, k)
    {
      AllStripes(job, sendbuf, init, t, k);
      AllStripes(job, sendbuf, init, t, k + 1);
      StripeDone(job, sendbuf, init, t, init, k);
    }
    AllAccepted(ScatterPlan(job, sendbuf), init, t);
    AllStripes(job, sendbuf, init, t, NumStripes(job));
  }

  /** The i-th process of host h has exactly the bytes for it, and nothing else of its memory has changed. */
  ghost predicate HasOwn<T>(job: Job, sendbuf: seq<T>, now: Node<T>, before: seq<Node<T>>, h: nat, i: nat)
    requires ValidJob(job) && Fits(job, sendbuf, before) && h < |job.procs| && i < |job.procs[h]|
  {
    && |now.own| == |job.procs[h]|
    && Received(sendbuf, job.procs[h][i] * job.counts[job.root], job.recvBytes, now.own[i], before[h].own[i])
  }

  /** The outcome of one schedule: all have their bytes, or somebody can go on. */
  ghost predicate Delivers<T>(job: Job, sendbuf: seq<T>, init: seq<Node<T>>, posted: seq<nat>)
    requires ValidJob(job) && Fits(job, sendbuf, init)
  {
    var net := PhaseNet(ScatterPlan(job, sendbuf));
    var ops := PostedBy(net.scripts);
    && Addressed(ops)
    && var d := Perform(net, ops, Start(net, init), posted);
    if AllPerformed(ops, d)
    then forall h, i {:trigger HasOwn(job, sendbuf, d.local[h], init, h, i)} ::
      0 <= h < |job.procs| && 0 <= i < |job.procs[h]| ==> HasOwn(job, sendbuf, d.local[h], init, h, i)
    else exists h :: CanAct(net, ops, d, h, true)
  }

  lemma {:induction false} ProcHasOwn<T>(job: Job, sendbuf: seq<T>, now: Node<T>, before: seq<Node<T>>, h: nat, i: nat)
    requires ValidJob(job) && Fits(job, sendbuf, before) && h < |job.procs| && i < |job.procs[h]|
    requires ProcReady(job, sendbuf, now, before, h, i, NumStripes(job))
    ensures HasOwn(job, sendbuf, now, before, h, i)
  {
    hide IsPlacement, HasRoom, Write, Before, Slot, Received, Read;
    PlacedRanks(job.procs, |job.counts|, h);
    StripesSuffice(job.recvBytes, job.size);
    SlotPart(sendbuf, job.procs[h][i], |job.counts|, job.counts[job.root], 0, 0, job.recvBytes);
    PiecesJoin(Mine(job, sendbuf, job.procs[h][i]), NumStripes(job), job.size);
    ReceivedIs(sendbuf, job.procs[h][i] * job.counts[job.root], job.recvBytes, now.own[i], before[h].own[i]);
  }

  /**
   If every process's count is right, then whatever the data, and however the hosts' operations
   interleave, every process gets exactly the bytes for it; until then some host can go on, even
   with synchronous sends.
   */
  lemma {:induction false} RightCountsDeliver<T>(job: Job, sendbuf: seq<T>, init: seq<Node<T>>, posted: seq<nat>)
    requires ValidJob(job) && RightCounts(job) && Fits(job, sendbuf, init)
    ensures Delivers(job, sendbuf, init, posted)
  {
    hide AllConsistent, ScatterPlan, IsPlacement, Consistent, StripedRun, HasRoom, HasOwn, ProcReady, Addressed,
      AllPerformed, CanAct, Perform, RightCounts, NumStripes;
    var t := RunIsStriped(job, sendbuf, init);
    StripedRunScatters(job, sendbuf, init, t);
    PhasesRun(ScatterPlan(job, sendbuf), init, posted);
    var last := t[Base(NumStripes(job), Len(job))];
    forall h, i | 0 <= h < |job.procs| && 0 <= i < |job.procs[h]|
      ensures HasOwn(job, sendbuf, last[h], init, h, i)
    {
      assert ProcReady(job, sendbuf, last[h], init, h, i, NumStripes(job));
      ProcHasOwn(job, sendbuf, last[h], init, h, i);
    }
  }

  // ---------------------------------------------------------------- the host's loop

  /**
   The stripe loop of `ulm_scatter` on one host: the root packs, local rank 0 takes part in the
   interhost scatter with its own count for the stripe, and the processes copy out.
   */
  method UlmScatter<T>(tree: Tree, scatterDataNodeList: seq<seq<nat>>, myHostRank: nat, rootHost: nat, sendBytes: nat,
                       recvBytes: nat, perRankStripeSize: nat, nProcs: seq<nat>, ghost job: Job, ghost sendbuf: seq<T>)
    returns (ops: seq<Round<Deed<Segment>>>)
    requires ValidJob(job) && rootHost == job.rootHost && recvBytes == job.recvBytes && perRankStripeSize == job.size
    requires myHostRank < |job.procs| && sendBytes == LeaderCount(job, myHostRank) && nProcs == Sizes(job.procs)
    requires ScatterSetup(TreeOf(job), tree, scatterDataNodeList, rootHost, nProcs)
    ensures ops == PostedBy(PhaseNet(ScatterPlan(job, sendbuf)).scripts)[myHostRank]
  {
    hide Active, Lift, ScatterScript, IsTree, Walk, StripeScripts, HostBytes, LeaderCount, IsPlacement, Sent, PieceLen,
      StripesFor;
    var numStripes := StripesFor(recvBytes, perRankStripeSize);
    var bytesPerProcToSend := sendBytes;
    ops := [];
    ghost var n, len, phases := |job.procs|, Len(job), StripesOf(job, numStripes);
    PhasesInStep(job, numStripes);
    PostedFirst(phases, n, len, myHostRank);
    NextSent(sendBytes, 0, perRankStripeSize);
    for stripe := 0 to numStripes
      invariant Phased(phases, n, len)
      invariant stripe < numStripes ==> bytesPerProcToSend == sendBytes - Sent(sendBytes, stripe, perRankStripeSize)
      invariant ops == Active(ScriptUpto(phases, n, len, myHostRank, stripe))
    {
      NextSent(sendBytes, stripe, perRankStripeSize);
      var sendNow := bytesPerProcToSend;
      if sendNow > perRankStripeSize {
        sendNow := perRankStripeSize;
      }
      ops := ops + [OwnRound(myHostRank, stripe, 0)];
      var exchange := UlmScatterInterhost(tree, scatterDataNodeList, myHostRank, rootHost, sendNow, nProcs,
                                          TreeOf(job));
      assert exchange == Active(phases[stripe][myHostRank]);
      ops := ops + Lift(exchange) + [OwnRound(myHostRank, stripe, 1)];
      PostedPhase(phases, n, len, myHostRank, stripe);
      if numStripes > 1 {
        bytesPerProcToSend := bytesPerProcToSend - sendNow;
      }
    }
  }
}
