/**
 `ulm_allgathervMultipleStripes` from end to end: the hosts go through the stripes, each at its
 own pace; in a stripe the processes of a host write their pieces, the hosts exchange, and every
 process copies out.
 */
module AllGatherV {
  import opened Layout
  import opened Network
  import opened Buffers
  import opened Posted
  import opened Phases
  import opened Bits
  import opened Hypercube
  import opened Exchange
  import opened ExchangeRun
  import opened Stripes
  import opened Placement
  import opened CopyOut
  import opened StripedGather
  import opened StripeExchange

  /** `procs[h]` are the ranks on host h; `displs[r]` are the displacements that rank r was called with. */
  datatype Job<T> = Job(procs: seq<seq<nat>>, data: seq<seq<T>>, displs: seq<seq<nat>>, size: nat)

  ghost predicate ValidJob<T>(job: Job<T>) {
    && |job.procs| >= 1 && job.size > 0 && IsPlacement(job.procs, |job.data|) && |job.displs| == |job.data|
    && forall r :: 0 <= r < |job.data| ==> |job.displs[r]| == |job.data|
  }

  /** A host: the shared buffer, and the receive buffers of its processes. */
  type Node<T> = Host<seq<T>, seq<seq<T>>>

  ghost function Len<T>(job: Job<T>): nat
    requires ValidJob(job)
  {
    Levels(|job.procs|) + 2
  }

  /** The ranks in the order in which the processes of host h find their pieces. */
  ghost function ReadOrder<T>(job: Job<T>, h: nat): (ranks: seq<nat>)
    requires ValidJob(job) && h < |job.procs|
    ensures IsPermutation(ranks, |job.data|)
  {
    FinalHeld(job.procs, h);
    BufferOrder(job.procs, DataHostOrder(h, |job.procs|), 0, |job.data|)
  }

  /** The processes of host h copy stripe k out, each to its own receive buffer. */
  ghost function CopyAll<T>(job: Job<T>, h: nat, k: nat, shared: seq<T>, bufs: seq<seq<T>>): (bufs': seq<seq<T>>)
    requires ValidJob(job) && h < |job.procs| && |bufs| == |job.procs[h]|
    ensures |bufs'| == |bufs| && forall i {:trigger bufs'[i]} :: 0 <= i < |bufs| ==>
      && job.procs[h][i] < |job.data|
      && bufs'[i] == CopiedOut(bufs[i], shared, StripeOffsets(job.displs[job.procs[h][i]], k, job.size),
                               PieceLens(Sizes(job.data), k, job.size), ReadOrder(job, h))
  {
    PlacedRanks(job.procs, |job.data|, h);
    seq(|bufs|, i requires 0 <= i < |bufs| =>
      CopiedOut(bufs[i], shared, StripeOffsets(job.displs[job.procs[h][i]], k, job.size),
                PieceLens(Sizes(job.data), k, job.size), ReadOrder(job, h)))
  }

  ghost function OwnStep<T>(job: Job<T>, writes: seq<seq<seq<nat>>>, h: nat, k: nat, stage: nat, st: Node<T>): Node<T>
    requires ValidJob(job)
  {
    if stage == 0 then
      if h < |job.procs| && k < |writes| && AllWrite(job.procs, writes[k])
      then Host(WriteAll(job.data, job.procs, writes[k], h, k, job.size, st.shared), st.own)
      else st
    else if h < |job.procs| && |st.own| == |job.procs[h]| then Host(st.shared, CopyAll(job, h, k, st.shared, st.own))
    else st
  }

  ghost function ExchangeScript(h: nat, sizes: seq<nat>): (script: seq<Round<Segment>>)
    requires h < |sizes|
    ensures |script| == Levels(|sizes|) + 2
    ensures forall r :: 0 <= r < |script| ==> script[r] == ExchangeRound(h, r, sizes, |sizes|)
  {
    seq(Levels(|sizes|) + 2, r requires 0 <= r => ExchangeRound(h, r, sizes, |sizes|))
  }

  lemma {:induction false} TheScript(script: seq<Round<Segment>>, h: nat, sizes: seq<nat>)
    requires h < |sizes|
    ensures IsScript(script, h, sizes, |sizes|) <==> script == ExchangeScript(h, sizes)
  {
    hide ExchangeRound;
    if script == ExchangeScript(h, sizes) {
      forall r: nat
        ensures RoundIs(RoundAt(script, r), h, r, sizes, |sizes|)
      {
        if r >= |script| {
          RestIdle(h, r, sizes);
        }
      }
    } else if IsScript(script, h, sizes, |sizes|) {
      forall r | 0 <= r < |script|
        ensures script[r] == ExchangeScript(h, sizes)[r]
      {
        assert RoundIs(RoundAt(script, r), h, r, sizes, |sizes|);
      }
    }
  }

  lemma {:induction false} RestIdle(h: nat, r: nat, sizes: seq<nat>)
    requires h < |sizes| && r >= Levels(|sizes|) + 2
    ensures ExchangeRound(h, r, sizes, |sizes|) == Idle()
  {
  }

  /** The messages of stripe k. */
  ghost function StripeScripts<T>(job: Job<T>, k: nat): (scripts: seq<seq<Round<Segment>>>)
    requires ValidJob(job)
    ensures |scripts| == |job.procs|
    ensures forall h :: 0 <= h < |job.procs| ==>
      scripts[h] == ExchangeScript(h, Sizes(StripeData(job.data, job.procs, k, job.size)))
  {
    var sizes := Sizes(StripeData(job.data, job.procs, k, job.size));
    seq(|job.procs|, h requires 0 <= h < |job.procs| => ExchangeScript(h, sizes))
  }

  ghost function StripesOf<T>(job: Job<T>, stripes: nat): (phases: seq<seq<seq<Round<Segment>>>>)
    requires ValidJob(job)
    ensures |phases| == stripes && forall k :: 0 <= k < stripes ==> phases[k] == StripeScripts(job, k)
  {
    seq(stripes, k requires 0 <= k < stripes => StripeScripts(job, k))
  }

  lemma {:induction false} PhasesInStep<T>(job: Job<T>, stripes: nat)
    requires ValidJob(job)
    ensures Phased(StripesOf(job, stripes), |job.procs|, Len(job))
  {
    hide StripesOf, ExchangeScript;
    forall k | 0 <= k < stripes
      ensures InStep(StripesOf(job, stripes)[k], |job.procs|, Len(job))
    {
    }
  }

  ghost function AllgatherPlan<T>(job: Job<T>,
                                  writes: seq<seq<seq<nat>>>): (plan: Plan<Segment, seq<T>, seq<seq<T>>, seq<T>>)
    requires ValidJob(job)
    ensures IsPlan(plan) && |plan.phases| == |writes| && plan.n == |job.procs| && plan.len == Len(job)
  {
    PhasesInStep(job, |writes|);
    Plan(BufferNet<T>([]), StripesOf(job, |writes|), |job.procs|, Len(job),
         (h: nat, k: nat, stage: nat, st: Node<T>) => OwnStep(job, writes, h, k, stage, st))
  }

  lemma {:induction false} StripeIsExchange<T>(job: Job<T>, writes: seq<seq<seq<nat>>>, k: nat)
    requires ValidJob(job) && k < |writes|
    ensures var net := PhaseOf(AllgatherPlan(job, writes), k);
      && net == BufferNet<T>(net.scripts) && Consistent(net)
      && AreScripts(net.scripts, Sizes(StripeData(job.data, job.procs, k, job.size)))
      && |net.scripts| == |job.procs|
  {
    hide StripeData, IsScript, ExchangeScript;
    var net, sizes := PhaseOf(AllgatherPlan(job, writes), k), Sizes(StripeData(job.data, job.procs, k, job.size));
    assert net.scripts == StripeScripts(job, k);
    forall h | 0 <= h < |sizes|
      ensures IsScript(net.scripts[h], h, sizes, |sizes|)
    {
      TheScript(net.scripts[h], h, sizes);
    }
    ExchangePairs(net, sizes);
  }

  // ---------------------------------------------------------------- one stripe

  /** Every process's receive buffer has room for everybody's bytes, without overlaps. */
  ghost predicate Receives<T>(job: Job<T>, before: seq<Node<T>>)
    requires ValidJob(job)
  {
    && |before| == |job.procs|
    && (forall h :: 0 <= h < |job.procs| ==> |before[h].own| == |job.procs[h]|)
    && (forall h, i {:trigger before[h].own[i]} :: 0 <= h < |job.procs| && 0 <= i < |job.procs[h]| ==>
          job.procs[h][i] < |job.data| &&
          Separate(job.displs[job.procs[h][i]], Sizes(job.data), |before[h].own[i]|))
  }

  /** The i-th process of host h has the first k pieces of every rank. */
  ghost predicate ProcReady<T>(job: Job<T>, now: Node<T>, before: seq<Node<T>>, h: nat, i: nat, k: nat)
    requires ValidJob(job) && Receives(job, before) && h < |job.procs| && i < |job.procs[h]|
  {
    var r := job.procs[h][i];
    assert Separate(job.displs[r], Sizes(job.data), |before[h].own[i]|);
    && |now.own| == |job.procs[h]| && |now.own[i]| == |before[h].own[i]|
    && Filled(now.own[i], before[h].own[i], job.data, job.displs[r], k, job.size)
  }

  ghost predicate Ready<T>(job: Job<T>, hosts: seq<Node<T>>, before: seq<Node<T>>, k: nat)
    requires ValidJob(job) && Receives(job, before)
  {
    && |hosts| == |job.procs| && HasRoom(hosts, |job.data| * job.size)
    && (forall h :: 0 <= h < |job.procs| ==> |hosts[h].own| == |job.procs[h]|)
    && (forall h, i {:trigger ProcReady(job, hosts[h], before, h, i, k)} ::
          0 <= h < |job.procs| && 0 <= i < |job.procs[h]| ==> ProcReady(job, hosts[h], before, h, i, k))
  }

  /** `t` is the round-by-round run of all stripes. */
  ghost predicate StripedRun<T>(job: Job<T>, writes: seq<seq<seq<nat>>>, init: seq<Node<T>>, t: seq<seq<Node<T>>>)
    requires ValidJob(job)
  {
    && (forall k :: 0 <= k < |writes| ==> AllWrite(job.procs, writes[k]))
    && RunOf(AllgatherPlan(job, writes), init, t) && (forall r :: 0 <= r < |t| ==> |t[r]| == |job.procs|)
    && AllConsistent(AllgatherPlan(job, writes))
  }

  /** The shared buffers in the rounds of messages of stripe k. */
  ghost function StripeAt<T>(job: Job<T>, writes: seq<seq<seq<nat>>>, t: seq<seq<Node<T>>>,
                             k: nat): (u: seq<seq<seq<T>>>)
    requires ValidJob(job) && k < |writes| && Base(k + 1, Len(job)) < |t|
    requires forall r :: 0 <= r < |t| ==> |t[r]| == |job.procs|
    ensures |u| == Len(job) + 1 && forall j :: 0 <= j < |u| ==> |u[j]| == |job.procs|
    ensures forall j, h {:trigger u[j][h]} :: 0 <= j < |u| && 0 <= h < |job.procs| ==>
      u[j][h] == t[Base(k, Len(job)) + 1 + j][h].shared
  {
    Slice(AllgatherPlan(job, writes), t, k)
  }

  lemma {:induction false} OwnStepsOf<T>(job: Job<T>, writes: seq<seq<seq<nat>>>, init: seq<Node<T>>,
                                         t: seq<seq<Node<T>>>, k: nat, h: nat)
    requires ValidJob(job) && StripedRun(job, writes, init, t) && k < |writes| && h < |job.procs|
    requires Base(k + 1, Len(job)) < |t|
    ensures AllWrite(job.procs, writes[k])
    ensures var b, len := Base(k, Len(job)), Len(job);
      && t[b + 1][h] == Host(WriteAll(job.data, job.procs, writes[k], h, k, job.size, t[b][h].shared), t[b][h].own)
      && t[b + len + 2][h] == OwnStep(job, writes, h, k, 1, t[b + len + 1][h])
  {
    hide RunOf, WriteAll, AllConsistent, AllWrite, ValidJob, IsPlan, CopyAll;
    assert AllWrite(job.procs, writes[k]);
    OwnSteps(AllgatherPlan(job, writes), init, t, k, h);
  }

  lemma {:induction false} HostStarts<T>(job: Job<T>, writes: seq<seq<seq<nat>>>, init: seq<Node<T>>,
                                         t: seq<seq<Node<T>>>, k: nat, h: nat)
    requires ValidJob(job) && StripedRun(job, writes, init, t) && k < |writes| && h < |job.procs|
    requires Base(k + 1, Len(job)) < |t| && HasRoom(t[Base(k, Len(job))], |job.data| * job.size)
    ensures var u0, data := StripeAt(job, writes, t, k)[0], StripeData(job.data, job.procs, k, job.size);
      HoldsAt(data, u0[h], h, 0) && |u0[h]| == |t[Base(k, Len(job))][h].shared|
  {
    hide RunOf, AllConsistent, Bytes, StripeAt, StripeData, WriteAll, AllgatherPlan, IsPlacement, AllWrite, HeldData;
    var b, data := Base(k, Len(job)), StripeData(job.data, job.procs, k, job.size);
    OwnStepsOf(job, writes, init, t, k, h);
    AllWritten(job.data, job.procs, writes[k], 0, h, k, job.size, t[b][h].shared);
    NoShift(data);
    HeldDataStep(data, h, 0);
  }

  lemma {:induction false} StripeStarts<T>(job: Job<T>, writes: seq<seq<seq<nat>>>, init: seq<Node<T>>,
                                           t: seq<seq<Node<T>>>, k: nat)
    requires ValidJob(job) && StripedRun(job, writes, init, t) && k < |writes|
    requires Base(k + 1, Len(job)) < |t| && HasRoom(t[Base(k, Len(job))], |job.data| * job.size)
    ensures AllHold(StripeData(job.data, job.procs, k, job.size), StripeAt(job, writes, t, k)[0], 0)
  {
    hide RunOf, AllConsistent, StripeData, HasRoom, HoldsAt, AllgatherPlan, IsPlacement;
    var u0, data := StripeAt(job, writes, t, k)[0], StripeData(job.data, job.procs, k, job.size);
    forall h | 0 <= h < |data|
      ensures HoldsAt(data, u0[h], h, 0)
    {
      HostStarts(job, writes, init, t, k, h);
    }
  }

  lemma {:induction false} StripeTrace<T>(job: Job<T>, writes: seq<seq<seq<nat>>>, init: seq<Node<T>>,
                                          t: seq<seq<Node<T>>>, k: nat)
    requires ValidJob(job) && StripedRun(job, writes, init, t) && k < |writes| && Base(k + 1, Len(job)) < |t|
    ensures var net, u := PhaseOf(AllgatherPlan(job, writes), k), StripeAt(job, writes, t, k);
      && net == BufferNet<T>(net.scripts) && Consistent(net)
      && AreScripts(net.scripts, Sizes(StripeData(job.data, job.procs, k, job.size)))
      && InStep(net.scripts, |job.procs|, Len(job)) && IsTrace(net, u[0], u)
  {
    hide RunOf, AllConsistent, IsTrace, Consistent, AllgatherPlan, AreScripts, Slice;
    SliceIsTrace(AllgatherPlan(job, writes), init, t, k);
    StripeIsExchange(job, writes, k);
  }

  /** Every receive of the stripe is posted for what is sent. */
  lemma {:induction false} StripeAccepts<T>(job: Job<T>, writes: seq<seq<seq<nat>>>, init: seq<Node<T>>,
                                            t: seq<seq<Node<T>>>, k: nat)
    requires ValidJob(job) && StripedRun(job, writes, init, t) && k < |writes| && Base(k + 1, Len(job)) < |t|
    requires AllHold(StripeData(job.data, job.procs, k, job.size), StripeAt(job, writes, t, k)[0], 0)
    ensures Consistent(PhaseOf(AllgatherPlan(job, writes), k))
    ensures InStep(AllgatherPlan(job, writes).phases[k], |job.procs|, Len(job))
    ensures PhaseAccepts(AllgatherPlan(job, writes), t, k)
  {
    hide RunOf, AllConsistent, IsTrace, Consistent, AllgatherPlan, AreScripts, AllHold, AcceptsIn, StripeData,
      BufferNet;
    StripeTrace(job, writes, init, t, k);
    var net, u := PhaseOf(AllgatherPlan(job, writes), k), StripeAt(job, writes, t, k);
    forall h, j: nat | 0 <= h < |job.procs| && j < Len(job) && InAt(net, h, j).Some?
      ensures AcceptsIn(net, u, h, j)
    {
      TraceHolds(net, u[0], u, StripeData(job.data, job.procs, k, job.size), j);
      RoundHolds(net, u[0], u, StripeData(job.data, job.procs, k, job.size), j, h);
    }
  }

  /** After the messages every host has all pieces, in the order in which its processes read them. */
  lemma {:induction false} StripeEnds<T>(job: Job<T>, writes: seq<seq<seq<nat>>>, init: seq<Node<T>>,
                                         t: seq<seq<Node<T>>>, k: nat, h: nat)
    requires ValidJob(job) && StripedRun(job, writes, init, t) && k < |writes| && Base(k + 1, Len(job)) < |t|
    requires AllHold(StripeData(job.data, job.procs, k, job.size), StripeAt(job, writes, t, k)[0], 0) && h < |job.procs|
    ensures Flat(Pieces(job.data, k, job.size), ReadOrder(job, h)) <= StripeAt(job, writes, t, k)[Len(job)][h]
  {
    hide RunOf, AllConsistent, IsTrace, Consistent, AllgatherPlan, AreScripts, Flat, HeldData, DataHostOrder;
    StripeTrace(job, writes, init, t, k);
    var net, u := PhaseOf(AllgatherPlan(job, writes), k), StripeAt(job, writes, t, k);
    var len, data := Len(job), StripeData(job.data, job.procs, k, job.size);
    TraceHolds(net, u[0], u, data, len);
    assert HoldsAt(data, u[len][h], h, len);
    FinalHeld(data, h);
    NoShift(data);
    ReadersFind(Pieces(job.data, k, job.size), job.procs, DataHostOrder(h, |job.procs|), 0);
  }

  lemma {:induction false} RoomStays<T>(job: Job<T>, writes: seq<seq<seq<nat>>>, init: seq<Node<T>>,
                                        t: seq<seq<Node<T>>>, k: nat)
    requires ValidJob(job) && StripedRun(job, writes, init, t) && k < |writes|
    requires Base(k + 1, Len(job)) < |t| && HasRoom(t[Base(k, Len(job))], |job.data| * job.size)
    ensures HasRoom(t[Base(k + 1, Len(job))], |job.data| * job.size)
  {
    hide RunOf, AllConsistent, IsTrace, Consistent, AllgatherPlan, StripeData, AllWrite, CopyAll, IsPlacement, HoldsAt,
      AreScripts, BufferNet;
    var b, len := Base(k, Len(job)), Len(job);
    var next := t[Base(k + 1, len)];
    forall h | 0 <= h < |next|
      ensures |next[h].shared| >= |job.data| * job.size
    {
      OwnStepsOf(job, writes, init, t, k, h);
      HostStarts(job, writes, init, t, k, h);
      StripeTrace(job, writes, init, t, k);
      var net, u := PhaseOf(AllgatherPlan(job, writes), k), StripeAt(job, writes, t, k);
      TraceLengths(net, u[0], u, len, h);
      assert u[len][h] == t[b + 1 + len][h].shared;
    }
  }

  /** In stripe k the processes of host h add the pieces of stripe k. */
  lemma {:induction false} ProcsCopy<T>(job: Job<T>, writes: seq<seq<seq<nat>>>, init: seq<Node<T>>,
                                        t: seq<seq<Node<T>>>, k: nat, h: nat, i: nat)
    requires ValidJob(job) && StripedRun(job, writes, init, t) && k < |writes| && Base(k + 1, Len(job)) < |t|
    requires h < |job.procs| && i < |job.procs[h]| == |t[Base(k, Len(job))][h].own|
    requires Flat(Pieces(job.data, k, job.size), ReadOrder(job, h)) <= StripeAt(job, writes, t, k)[Len(job)][h]
    ensures |t[Base(k + 1, Len(job))][h].own| == |job.procs[h]| && job.procs[h][i] < |job.data|
    ensures t[Base(k + 1, Len(job))][h].own[i] ==
      Placed(t[Base(k, Len(job))][h].own[i], StripeOffsets(job.displs[job.procs[h][i]], k, job.size),
             Pieces(job.data, k, job.size), ReadOrder(job, h))
  {
    hide RunOf, AllConsistent, Consistent, AllgatherPlan, AllWrite, CopiedOut, Flat, Placed, ReadOrder, WriteAll,
      IsPlacement;
    var b, len, ranks := Base(k, Len(job)), Len(job), ReadOrder(job, h);
    PlacedRanks(job.procs, |job.data|, h);
    OwnStepsOf(job, writes, init, t, k, h);
    OwnStays(AllgatherPlan(job, writes), init, t, k, len, h);
    PieceSizes(job.data, k, job.size);
    var st := t[b + 1 + len][h];
    assert st.shared == StripeAt(job, writes, t, k)[len][h];
    CopiedIsPlaced(st.own[i], st.shared, StripeOffsets(job.displs[job.procs[h][i]], k, job.size),
                   Pieces(job.data, k, job.size), ranks, |ranks|);
    assert ranks[..|ranks|] == ranks;
  }

  lemma {:induction false} ProcDone<T>(job: Job<T>, writes: seq<seq<seq<nat>>>, init: seq<Node<T>>,
                                       t: seq<seq<Node<T>>>, before: seq<Node<T>>, k: nat, h: nat, i: nat)
    requires ValidJob(job) && StripedRun(job, writes, init, t) && k < |writes| && Base(k + 1, Len(job)) < |t|
    requires Receives(job, before) && h < |job.procs| && i < |job.procs[h]|
    requires ProcReady(job, t[Base(k, Len(job))][h], before, h, i, k)
    requires AllHold(StripeData(job.data, job.procs, k, job.size), StripeAt(job, writes, t, k)[0], 0)
    ensures ProcReady(job, t[Base(k + 1, Len(job))][h], before, h, i, k + 1)
  {
    hide RunOf, AllConsistent, Consistent, AllgatherPlan, AllWrite, Flat, Placed, ReadOrder, AllHold, HasRoom, Separate,
      Filled, StripeAt, StripeData, AllInside, IsPlacement;
    StripeEnds(job, writes, init, t, k, h);
    ProcsCopy(job, writes, init, t, k, h, i);
    var now, r := t[Base(k, Len(job))][h].own[i], job.procs[h][i];
    assert Separate(job.displs[r], Sizes(job.data), |before[h].own[i]|);
    Separation(job.displs[r], Sizes(job.data), |now|);
    FilledStep(now, before[h].own[i], job.data, job.displs[r], k, job.size, ReadOrder(job, h));
  }

  lemma {:induction false} StripeDone<T>(job: Job<T>, writes: seq<seq<seq<nat>>>, init: seq<Node<T>>,
                                         t: seq<seq<Node<T>>>, before: seq<Node<T>>, k: nat)
    requires ValidJob(job) && StripedRun(job, writes, init, t) && k < |writes| && Base(k + 1, Len(job)) < |t|
    requires Receives(job, before) && Ready(job, t[Base(k, Len(job))], before, k)
    ensures Ready(job, t[Base(k + 1, Len(job))], before, k + 1)
    ensures Consistent(PhaseOf(AllgatherPlan(job, writes), k))
    ensures InStep(AllgatherPlan(job, writes).phases[k], |job.procs|, Len(job))
    ensures PhaseAccepts(AllgatherPlan(job, writes), t, k)
  {
    hide RunOf, AllConsistent, Consistent, AllgatherPlan, AllWrite, AllHold, HasRoom, Receives, ProcReady,
      PhaseAccepts, StripeAt, StripeData, IsPlacement, CopyAll, WriteAll;
    StripeStarts(job, writes, init, t, k);
    StripeAccepts(job, writes, init, t, k);
    RoomStays(job, writes, init, t, k);
    var next, k' := t[Base(k + 1, Len(job))], k + 1;
    forall h | 0 <= h < |job.procs|
      ensures |next[h].own| == |job.procs[h]|
    {
      OwnStepsOf(job, writes, init, t, k, h);
      OwnStays(AllgatherPlan(job, writes), init, t, k, Len(job), h);
    }
    forall h, i | 0 <= h < |job.procs| && 0 <= i < |job.procs[h]|
      ensures ProcReady(job, next[h], before, h, i, k')
    {
      assert ProcReady(job, t[Base(k, Len(job))][h], before, h, i, k);
      ProcDone(job, writes, init, t, before, k, h, i);
    }
  }

  // ---------------------------------------------------------------- the collective

  lemma {:induction false} AllStripes<T>(job: Job<T>, writes: seq<seq<seq<nat>>>, init: seq<Node<T>>,
                                         t: seq<seq<Node<T>>>, k: nat)
    requires ValidJob(job) && StripedRun(job, writes, init, t) && k <= |writes|
    requires Receives(job, init) && Ready(job, init, init, 0)
    ensures Base(k, Len(job)) < |t| && Ready(job, t[Base(k, Len(job))], init, k)
    decreases k
  {
    hide AllConsistent, AllgatherPlan, AllWrite, Ready, Receives, IsPlacement;
    BaseMonotone(k, |writes|, Len(job));
    if k > 0 {
      AllStripes(job, writes, init, t, k - 1);
      StripeDone(job, writes, init, t, init, k - 1);
    } else {
      TraceStart(PhaseNet(AllgatherPlan(job, writes)), init, t);
    }
  }

  lemma {:induction false} AllgatherPlanPairs<T>(job: Job<T>, writes: seq<seq<seq<nat>>>)
    requires ValidJob(job)
    ensures AllConsistent(AllgatherPlan(job, writes))
  {
    hide AllgatherPlan, ValidJob, AreScripts, Consistent, BufferNet;
    forall k | 0 <= k < |writes|
      ensures Consistent(PhaseOf(AllgatherPlan(job, writes), k))
    {
      StripeIsExchange(job, writes, k);
    }
  }

  lemma {:induction false} RunIsStriped<T>(job: Job<T>, writes: seq<seq<seq<nat>>>, init: seq<Node<T>>)
    returns (t: seq<seq<Node<T>>>)
    requires ValidJob(job) && |init| == |job.procs|
    requires forall k :: 0 <= k < |writes| ==> AllWrite(job.procs, writes[k])
    ensures StripedRun(job, writes, init, t) && Consistent(PhaseNet(AllgatherPlan(job, writes)))
    ensures t == Trace(PhaseNet(AllgatherPlan(job, writes)), init)
    ensures MaxLength(PhaseNet(AllgatherPlan(job, writes)).scripts) == Base(|writes|, Len(job))
  {
    hide AllConsistent, AllgatherPlan, AllWrite, IsPlacement, Consistent, IsTrace;
    AllgatherPlanPairs(job, writes);
    t := TheRun(AllgatherPlan(job, writes), init);
    forall r | 0 <= r < |t|
      ensures |t[r]| == |job.procs|
    {
      TraceShape(PhaseNet(AllgatherPlan(job, writes)), init, t, r);
    }
  }

  lemma {:induction false} ReadyAtStart<T>(job: Job<T>, init: seq<Node<T>>)
    requires ValidJob(job) && Receives(job, init) && HasRoom(init, |job.data| * job.size)
    ensures Ready(job, init, init, 0)
  {
    hide Filled, IsPlacement, HasRoom, Separate;
    forall h, i | 0 <= h < |job.procs| && 0 <= i < |job.procs[h]|
      ensures ProcReady(job, init[h], init, h, i, 0)
    {
      PlacedRanks(job.procs, |job.data|, h);
      var r := job.procs[h][i];
      assert Separate(job.displs[r], Sizes(job.data), |init[h].own[i]|);
      Separation(job.displs[r], Sizes(job.data), |init[h].own[i]|);
      FilledAtStart(init[h].own[i], job.data, job.displs[r], job.size);
    }
  }

  lemma {:induction false} StripedRunGathers<T>(job: Job<T>, writes: seq<seq<seq<nat>>>, init: seq<Node<T>>,
                                                t: seq<seq<Node<T>>>)
    requires ValidJob(job) && Receives(job, init) && HasRoom(init, |job.data| * job.size)
    requires StripedRun(job, writes, init, t) && Consistent(PhaseNet(AllgatherPlan(job, writes)))
    requires t == Trace(PhaseNet(AllgatherPlan(job, writes)), init)
    requires MaxLength(PhaseNet(AllgatherPlan(job, writes)).scripts) == Base(|writes|, Len(job))
    ensures Accepting(PhaseNet(AllgatherPlan(job, writes)), init)
    ensures Base(|writes|, Len(job)) < |t| && Ready(job, t[Base(|writes|, Len(job))], init, |writes|)
  {
    hide AllConsistent, AllgatherPlan, AllWrite, IsPlacement, Consistent, RunOf, PhaseAccepts, Ready, HasRoom;
    ReadyAtStart(job, init);
    forall k | 0 <= k < |writes|
      ensures Consistent(PhaseOf(AllgatherPlan(job, writes), k))
      ensures InStep(AllgatherPlan(job, writes).phases[k], |job.procs|, Len(job))
      ensures Base(k, Len(job)) + Len(job) + 1 < |t|
      ensures PhaseAccepts(AllgatherPlan(job, writes), t, k)
    {
      AllStripes(job, writes, init, t, k);
      AllStripes(job, writes, init, t, k + 1);
      StripeDone(job, writes, init, t, init, k);
    }
    AllAccepted(AllgatherPlan(job, writes), init, t);
    AllStripes(job, writes, init, t, |writes|);
  }

  /** The i-th process of host h has every rank's bytes at the displacement it asked for. */
  ghost predicate HasAll<T>(job: Job<T>, now: Node<T>, before: seq<Node<T>>, h: nat, i: nat)
    requires ValidJob(job) && Receives(job, before) && h < |job.procs| && i < |job.procs[h]|
  {
    var r := job.procs[h][i];
    assert Separate(job.displs[r], Sizes(job.data), |before[h].own[i]|);
    && |now.own| == |job.procs[h]| && |now.own[i]| == |before[h].own[i]|
    && Gathered(now.own[i], before[h].own[i], job.data, job.displs[r])
  }

  lemma {:induction false} ProcHasAll<T>(job: Job<T>, now: Node<T>, before: seq<Node<T>>, h: nat, i: nat, stripes: nat)
    requires ValidJob(job) && Receives(job, before) && h < |job.procs| && i < |job.procs[h]|
    requires ProcReady(job, now, before, h, i, stripes)
    requires InRange(Flat(job.procs, Ascending(|job.procs|)), |job.data|)
    requires IsStripeCount(Sizes(job.data), Flat(job.procs, Ascending(|job.procs|)), stripes, job.size)
    ensures HasAll(job, now, before, h, i)
  {
    hide IsPlacement, Filled, Gathered, Flat, IsStripeCount, Separate;
    AscendingIsPermutation(|job.procs|);
    RanksInOrder(job.procs, Ascending(|job.procs|), |job.data|);
    var r := job.procs[h][i];
    assert Separate(job.displs[r], Sizes(job.data), |before[h].own[i]|);
    Separation(job.displs[r], Sizes(job.data), |before[h].own[i]|);
    FilledAtEnd(now.own[i], before[h].own[i], job.data, job.displs[r], Flat(job.procs, Ascending(|job.procs|)), stripes,
                job.size);
  }

  /**
   The striped gather-to-all: whatever placement, displacements, bytes and stripe size, in
   whatever order the processes of a host write, and however the hosts' operations interleave,
   when all are performed every process of every host has every rank's bytes at the displacement
   it asked for, and its buffer is otherwise as it was; until then some host can go on, even
   with synchronous sends.
   */
  lemma {:induction false} AllgathervDelivers<T>(job: Job<T>, writes: seq<seq<seq<nat>>>, init: seq<Node<T>>,
                                                 posted: seq<nat>)
    requires ValidJob(job) && Receives(job, init) && HasRoom(init, |job.data| * job.size)
    requires forall k :: 0 <= k < |writes| ==> AllWrite(job.procs, writes[k])
    requires InRange(Flat(job.procs, Ascending(|job.procs|)), |job.data|)
    requires IsStripeCount(Sizes(job.data), Flat(job.procs, Ascending(|job.procs|)), |writes|, job.size)
    ensures var net := PhaseNet(AllgatherPlan(job, writes)); Consistent(net) && Addressed(PostedBy(net.scripts))
    ensures var net := PhaseNet(AllgatherPlan(job, writes));
      var ops := PostedBy(net.scripts);
      var d := Perform(net, ops, Start(net, init), posted);
      if AllPerformed(ops, d)
      then forall h, i {:trigger HasAll(job, d.local[h], init, h, i)} ::
        0 <= h < |job.procs| && 0 <= i < |job.procs[h]| ==> HasAll(job, d.local[h], init, h, i)
      else exists h :: CanAct(net, ops, d, h, true)
  {
    hide AllConsistent, AllgatherPlan, AllWrite, IsPlacement, Consistent, StripedRun, HasRoom, HasAll, ProcReady,
      Flat, Addressed, AllPerformed, CanAct, Perform, Receives, IsStripeCount;
    var net := PhaseNet(AllgatherPlan(job, writes));
    Hosts(job, init);
    var t := RunIsStriped(job, writes, init);
    StripedRunGathers(job, writes, init, t);
    PhasesRun(AllgatherPlan(job, writes), init, posted);
    var last := t[Base(|writes|, Len(job))];
    forall h, i | 0 <= h < |job.procs| && 0 <= i < |job.procs[h]|
      ensures HasAll(job, last[h], init, h, i)
    {
      assert ProcReady(job, last[h], init, h, i, |writes|);
      ProcHasAll(job, last[h], init, h, i, |writes|);
    }
  }

  lemma {:induction false} Hosts<T>(job: Job<T>, init: seq<Node<T>>)
    requires ValidJob(job) && Receives(job, init)
    ensures |init| == |job.procs|
  {
  }

  // ---------------------------------------------------------------- the host's loop

  lemma {:induction false} CountsAreSizes<T>(job: Job<T>, k: nat, dataToSendNow: seq<nat>)
    requires ValidJob(job) && |dataToSendNow| == |job.procs|
    requires forall h :: 0 <= h < |job.procs| ==>
      InRange(job.procs[h], |job.data|) &&
      dataToSendNow[h] == Bytes(PieceLens(Sizes(job.data), k, job.size), job.procs[h])
    ensures dataToSendNow == Sizes(StripeData(job.data, job.procs, k, job.size))
  {
    hide Bytes, HostData, IsPlacement;
    forall h | 0 <= h < |job.procs|
      ensures dataToSendNow[h] == Sizes(StripeData(job.data, job.procs, k, job.size))[h]
    {
      LengthsMatch(job.data, job.procs, k, job.size, h);
    }
  }

  /** One stripe of the loop: the writers, the exchange with the counts for the stripe, and the copy out. */
  method StripeOps<T>(hostExchangeList: seq<seq<nat>>, nExtra: nat, extraOffset: nat, myHostRank: nat,
                      procs: seq<seq<nat>>, recvBytes: seq<nat>, stripeID: nat, perRankStripeSize: nat,
                      ghost job: Job<T>)
    returns (ops: seq<Round<Segment>>)
    requires ValidJob(job) && procs == job.procs && recvBytes == Sizes(job.data) && perRankStripeSize == job.size
    requires myHostRank < |procs| && AreExchangeLists(hostExchangeList, |procs|)
    requires extraOffset == Pow2(Levels(|procs|)) && nExtra == |procs| - extraOffset
    ensures ops == Active(ExchangeScript(myHostRank, Sizes(StripeData(job.data, job.procs, stripeID, job.size))))
  {
    hide Bytes, ExchangeScript, AreExchangeLists, StripeData;
    var counts := StripeSizes(procs, recvBytes, stripeID, perRankStripeSize);
    CountsAreSizes(job, stripeID, counts);
    var dataToSendNow := new nat[|procs|](h requires 0 <= h < |procs| => counts[h]);
    var recvScratchSpace := new nat[|procs|](_ => 0);
    assert dataToSendNow[..] == counts;
    var script := ExchangeStripeOfData(myHostRank, hostExchangeList, dataToSendNow, recvScratchSpace, nExtra,
                                       extraOffset);
    TheScript(script, myHostRank, counts);
    ops := Active(script);
  }

  /** The stripe loop on one host. */
  method UlmAllgatherv<T>(hostExchangeList: seq<seq<nat>>, nExtra: nat, extraOffset: nat, myHostRank: nat,
                          procs: seq<seq<nat>>, recvBytes: seq<nat>, perRankStripeSize: nat, ghost job: Job<T>)
    returns (numStripes: nat, ops: seq<Round<Deed<Segment>>>)
    requires ValidJob(job) && procs == job.procs && recvBytes == Sizes(job.data) && perRankStripeSize == job.size
    requires myHostRank < |procs| && AreExchangeLists(hostExchangeList, |procs|)
    requires extraOffset == Pow2(Levels(|procs|)) && nExtra == |procs| - extraOffset
    ensures InRange(Flat(procs, Ascending(|procs|)), |recvBytes|)
    ensures IsStripeCount(recvBytes, Flat(procs, Ascending(|procs|)), numStripes, perRankStripeSize)
    ensures forall writes: seq<seq<seq<nat>>> :: |writes| == numStripes ==>
      ops == PostedBy(PhaseNet(AllgatherPlan(job, writes)).scripts)[myHostRank]
  {
    hide Bytes, Flat, Lift, StripeData, StripeScripts, ExchangeScript, AreExchangeLists, Active, OwnStep, IsStripeCount,
      InStep, Pow2, Levels;
    numStripes := CountStripes(procs, recvBytes, perRankStripeSize);
    ops := [];
    ghost var n, len, phases := |procs|, Len(job), StripesOf(job, numStripes);
    PhasesInStep(job, numStripes);
    PostedFirst(phases, n, len, myHostRank);
    for stripeID := 0 to numStripes
      invariant Phased(phases, n, len)
      invariant ops == Active(ScriptUpto(phases, n, len, myHostRank, stripeID))
    {
      ops := ops + [OwnRound(myHostRank, stripeID, 0)];
      var exchange := StripeOps(hostExchangeList, nExtra, extraOffset, myHostRank, procs, recvBytes, stripeID,
                                perRankStripeSize, job);
      assert exchange == Active(phases[stripeID][myHostRank]);
      ops := ops + Lift(exchange) + [OwnRound(myHostRank, stripeID, 1)];
      PostedPhase(phases, n, len, myHostRank, stripeID);
    }
  }
}
