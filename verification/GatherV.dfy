/**
 `ulm_gatherv` from end to end: the hosts go through the stripes, each at its own pace; in a
 stripe the processes of a host write their pieces, the hosts gather, and the root copies out.
 */
module GatherV {
  import opened Layout
  import opened Network
  import opened Buffers
  import opened Posted
  import opened Phases
  import opened Ranks
  import opened TreeWalk
  import opened CollTree
  import opened GatherOrder
  import opened GatherInterhost
  import opened GatherRun
  import opened Stripes
  import opened Placement
  import opened CopyOut
  import opened StripedGather
  import opened StripeExchange

  /** `procs[h]` are the ranks on host h, `root` is the host of the root. */
  datatype Job<T> = Job(order: nat, procs: seq<seq<nat>>, root: nat, data: seq<seq<T>>, displs: seq<nat>, size: nat)

  ghost predicate ValidJob<T>(job: Job<T>) {
    && job.order >= 2 && job.root < |job.procs| && job.size > 0
    && IsPlacement(job.procs, |job.data|) && |job.displs| == |job.data|
  }

  ghost function TreeOf<T>(job: Job<T>): Shape { Shape(|job.procs|, job.order) }

  /** The ranks in the order in which the root finds their pieces. */
  ghost function ReadOrder<T>(job: Job<T>): (ranks: seq<nat>)
    requires ValidJob(job)
    ensures IsPermutation(ranks, |job.data|)
  {
    RootWalkIsPermutation(TreeOf(job), true);
    BufferOrder(job.procs, Walk(TreeOf(job), 0, true), job.root, |job.data|)
  }

  /**
   A host's own steps in stripe k: its processes write, in the order `writes[k][h]`; and on the
   root's host the root copies out.
   */
  ghost function OwnStep<T>(job: Job<T>, writes: seq<seq<seq<nat>>>, h: nat, k: nat, stage: nat,
                            st: Host<seq<T>, seq<T>>): (st': Host<seq<T>, seq<T>>)
    requires ValidJob(job)
  {
    if stage == 0 then
      if h < |job.procs| && k < |writes| && AllWrite(job.procs, writes[k])
      then Host(WriteAll(job.data, job.procs, writes[k], h, k, job.size, st.shared), st.own)
      else st
    else if h == job.root then
      Host(st.shared, CopiedOut(st.own, st.shared, StripeOffsets(job.displs, k, job.size),
                                PieceLens(Sizes(job.data), k, job.size), ReadOrder(job)))
    else st
  }

  /** The messages of stripe k. */
  ghost function StripeScripts<T>(job: Job<T>, k: nat): (scripts: seq<seq<Round<Segment>>>)
    requires ValidJob(job)
    ensures |scripts| == |job.procs|
    ensures forall h {:trigger ToRelative(h, job.root, |job.procs|)} :: 0 <= h < |job.procs| ==>
      var sizes := Sizes(Shifted(StripeData(job.data, job.procs, k, job.size), job.root));
      scripts[h] == GatherScript(TreeOf(job), sizes, job.root, ToRelative(h, job.root, |job.procs|))
  {
    var sizes := Sizes(Shifted(StripeData(job.data, job.procs, k, job.size), job.root));
    seq(|job.procs|, h requires 0 <= h < |job.procs| =>
      GatherScript(TreeOf(job), sizes, job.root, ToRelative(h, job.root, |job.procs|)))
  }

  ghost function GatherPlan<T>(job: Job<T>, writes: seq<seq<seq<nat>>>): (plan: Plan<Segment, seq<T>, seq<T>, seq<T>>)
    requires ValidJob(job)
    ensures IsPlan(plan) && |plan.phases| == |writes| && plan.n == |job.procs|
    ensures plan.len == |SendOrder(TreeOf(job))|
  {
    PhasesInStep(job, |writes|);
    Plan(BufferNet<T>([]), StripesOf(job, |writes|), |job.procs|, |SendOrder(TreeOf(job))|,
         (h: nat, k: nat, stage: nat, st: Host<seq<T>, seq<T>>) => OwnStep(job, writes, h, k, stage, st))
  }

  ghost function StripesOf<T>(job: Job<T>, stripes: nat): (phases: seq<seq<seq<Round<Segment>>>>)
    requires ValidJob(job)
    ensures |phases| == stripes && forall k :: 0 <= k < stripes ==> phases[k] == StripeScripts(job, k)
  {
    seq(stripes, k requires 0 <= k < stripes => StripeScripts(job, k))
  }

  lemma {:induction false} PhasesInStep<T>(job: Job<T>, stripes: nat)
    requires ValidJob(job)
    ensures Phased(StripesOf(job, stripes), |job.procs|, |SendOrder(TreeOf(job))|)
  {
    hide SendOrder, StripesOf;
    forall k | 0 <= k < stripes
      ensures InStep(StripesOf(job, stripes)[k], |job.procs|, |SendOrder(TreeOf(job))|)
    {
      forall h | 0 <= h < |job.procs|
        ensures |StripeScripts(job, k)[h]| == |SendOrder(TreeOf(job))|
      {
        assert ToRelative(h, job.root, |job.procs|) < |job.procs|;
      }
    }
  }

  lemma {:induction false} StripeIsGather<T>(job: Job<T>, writes: seq<seq<seq<nat>>>, k: nat)
    requires ValidJob(job) && k < |writes|
    ensures var net := PhaseOf(GatherPlan(job, writes), k);
      RunsGather(net, TreeOf(job), job.root, StripeData(job.data, job.procs, k, job.size)) && Consistent(net)
  {
    hide SendOrder, StripeData;
    var net := PhaseOf(GatherPlan(job, writes), k);
    assert net.scripts == StripeScripts(job, k);
    assert RunsGather(net, TreeOf(job), job.root, StripeData(job.data, job.procs, k, job.size));
    GatherPairs(net, TreeOf(job), job.root, StripeData(job.data, job.procs, k, job.size));
  }

  // ---------------------------------------------------------------- one stripe

  /** Between the stripes: the buffers have room, and the first k pieces of every rank are at the root. */
  ghost predicate Ready<T>(job: Job<T>, hosts: seq<Host<seq<T>, seq<T>>>, before: seq<T>, k: nat)
    requires ValidJob(job) && Separate(job.displs, Sizes(job.data), |before|)
  {
    && |hosts| == |job.procs| && HasRoom(hosts, |job.data| * job.size)
    && |hosts[job.root].own| == |before|
    && AllInside(job.displs, Sizes(job.data), |before|)
    && Filled(hosts[job.root].own, before, job.data, job.displs, k, job.size)
  }

  /** `t` is the round-by-round run of all stripes. */
  ghost predicate StripedRun<T>(job: Job<T>, writes: seq<seq<seq<nat>>>, init: seq<Host<seq<T>, seq<T>>>,
                                t: seq<seq<Host<seq<T>, seq<T>>>>)
    requires ValidJob(job)
  {
    && (forall k :: 0 <= k < |writes| ==> AllWrite(job.procs, writes[k]))
    && RunOf(GatherPlan(job, writes), init, t) && (forall r :: 0 <= r < |t| ==> |t[r]| == |job.procs|)
    && AllConsistent(GatherPlan(job, writes))
  }

  /** The shared buffers in the rounds of messages of stripe k. */
  ghost function StripeAt<T>(job: Job<T>, writes: seq<seq<seq<nat>>>, t: seq<seq<Host<seq<T>, seq<T>>>>,
                             k: nat): (u: seq<seq<seq<T>>>)
    requires ValidJob(job) && k < |writes| && Base(k + 1, |SendOrder(TreeOf(job))|) < |t|
    requires forall r :: 0 <= r < |t| ==> |t[r]| == |job.procs|
    ensures |u| == |SendOrder(TreeOf(job))| + 1 && forall j :: 0 <= j < |u| ==> |u[j]| == |job.procs|
    ensures forall j, h {:trigger u[j][h]} :: 0 <= j < |u| && 0 <= h < |job.procs| ==>
      u[j][h] == t[Base(k, |SendOrder(TreeOf(job))|) + 1 + j][h].shared
  {
    Slice(GatherPlan(job, writes), t, k)
  }

  lemma {:induction false} AfterWriters<T>(job: Job<T>, writes: seq<seq<seq<nat>>>, init: seq<Host<seq<T>, seq<T>>>,
                                           t: seq<seq<Host<seq<T>, seq<T>>>>, k: nat, h: nat)
    requires ValidJob(job) && StripedRun(job, writes, init, t) && k < |writes| && h < |job.procs|
    requires Base(k + 1, |SendOrder(TreeOf(job))|) < |t|
    ensures AllWrite(job.procs, writes[k])
    ensures var b, len := Base(k, |SendOrder(TreeOf(job))|), |SendOrder(TreeOf(job))|;
      && t[b + 1][h] == Host(WriteAll(job.data, job.procs, writes[k], h, k, job.size, t[b][h].shared), t[b][h].own)
      && t[b + len + 2][h] == OwnStep(job, writes, h, k, 1, t[b + len + 1][h])
  {
    hide SendOrder, RunOf, WriteAll, AllConsistent, AllWrite, ValidJob, IsPlan;
    assert AllWrite(job.procs, writes[k]);
    OwnSteps(GatherPlan(job, writes), init, t, k, h);
  }

  /** Every host's buffer begins with its share of stripe k. */
  ghost predicate Started<T>(job: Job<T>, writes: seq<seq<seq<nat>>>, t: seq<seq<Host<seq<T>, seq<T>>>>, k: nat)
    requires ValidJob(job) && k < |writes| && Base(k + 1, |SendOrder(TreeOf(job))|) < |t|
    requires forall r :: 0 <= r < |t| ==> |t[r]| == |job.procs|
  {
    AllHold(TreeOf(job), job.root, Shifted(StripeData(job.data, job.procs, k, job.size), job.root),
            StripeAt(job, writes, t, k)[0], 0)
  }

  /** It does when all processes have written. */
  lemma {:induction false} StripeStarts<T>(job: Job<T>, writes: seq<seq<seq<nat>>>, init: seq<Host<seq<T>, seq<T>>>,
                                           t: seq<seq<Host<seq<T>, seq<T>>>>, k: nat)
    requires ValidJob(job) && StripedRun(job, writes, init, t) && k < |writes|
    requires Base(k + 1, |SendOrder(TreeOf(job))|) < |t|
    requires HasRoom(t[Base(k, |SendOrder(TreeOf(job))|)], |job.data| * job.size)
    ensures Started(job, writes, t, k)
  {
    hide SendOrder, RunOf, AllConsistent, Bytes, StripeData, HasRoom, AllHold, GatherPlan;
    var u0, data := StripeAt(job, writes, t, k)[0], StripeData(job.data, job.procs, k, job.size);
    forall h | 0 <= h < |job.procs|
      ensures data[h] <= u0[h] && Bytes(Sizes(Shifted(data, job.root)), Ascending(|job.procs|)) <= |u0[h]|
    {
      HostStarts(job, writes, init, t, k, h);
    }
    StartHolds(TreeOf(job), job.root, data, u0);
  }

  lemma {:induction false} HostStarts<T>(job: Job<T>, writes: seq<seq<seq<nat>>>, init: seq<Host<seq<T>, seq<T>>>,
                                         t: seq<seq<Host<seq<T>, seq<T>>>>, k: nat, h: nat)
    requires ValidJob(job) && StripedRun(job, writes, init, t) && k < |writes| && h < |job.procs|
    requires Base(k + 1, |SendOrder(TreeOf(job))|) < |t|
    requires HasRoom(t[Base(k, |SendOrder(TreeOf(job))|)], |job.data| * job.size)
    ensures var u := StripeAt(job, writes, t, k); |u| > 0 && |u[0]| == |job.procs|
    ensures var u0, data := StripeAt(job, writes, t, k)[0], StripeData(job.data, job.procs, k, job.size);
      && data[h] <= u0[h] && Bytes(Sizes(Shifted(data, job.root)), Ascending(|job.procs|)) <= |u0[h]|
      && |u0[h]| == |t[Base(k, |SendOrder(TreeOf(job))|)][h].shared|
  {
    hide SendOrder, RunOf, AllConsistent, Bytes, StripeAt, StripeData, WriteAll, GatherPlan, IsPlacement, AllWrite;
    var b := Base(k, |SendOrder(TreeOf(job))|);
    AfterWriters(job, writes, init, t, k, h);
    AllWritten(job.data, job.procs, writes[k], job.root, h, k, job.size, t[b][h].shared);
  }

  lemma {:induction false} StripeTrace<T>(job: Job<T>, writes: seq<seq<seq<nat>>>, init: seq<Host<seq<T>, seq<T>>>,
                                          t: seq<seq<Host<seq<T>, seq<T>>>>, k: nat)
    requires ValidJob(job) && StripedRun(job, writes, init, t) && k < |writes|
    requires Base(k + 1, |SendOrder(TreeOf(job))|) < |t|
    ensures var net, u := PhaseOf(GatherPlan(job, writes), k), StripeAt(job, writes, t, k);
      && RunsGather(net, TreeOf(job), job.root, StripeData(job.data, job.procs, k, job.size))
      && Consistent(net) && IsTrace(net, u[0], u) && InStep(net.scripts, |job.procs|, |SendOrder(TreeOf(job))|)
  {
    hide SendOrder, RunOf, AllConsistent, IsTrace, Consistent, GatherPlan, RunsGather, Slice;
    SliceIsTrace(GatherPlan(job, writes), init, t, k);
    StripeIsGather(job, writes, k);
  }

  /** Every receive of the stripe is posted for what the child sends. */
  lemma {:induction false} StripeAccepts<T>(job: Job<T>, writes: seq<seq<seq<nat>>>, init: seq<Host<seq<T>, seq<T>>>,
                                            t: seq<seq<Host<seq<T>, seq<T>>>>, k: nat)
    requires ValidJob(job) && StripedRun(job, writes, init, t) && k < |writes|
    requires Base(k + 1, |SendOrder(TreeOf(job))|) < |t|
    requires Started(job, writes, t, k)
    ensures Consistent(PhaseOf(GatherPlan(job, writes), k))
    ensures InStep(GatherPlan(job, writes).phases[k], |job.procs|, |SendOrder(TreeOf(job))|)
    ensures PhaseAccepts(GatherPlan(job, writes), t, k)
  {
    hide SendOrder, RunOf, AllConsistent, IsTrace, Consistent, GatherPlan, RunsGather, AllHold, AcceptsIn, StripeData;
    StripeTrace(job, writes, init, t, k);
    var net, u, data := PhaseOf(GatherPlan(job, writes), k), StripeAt(job, writes, t, k),
      StripeData(job.data, job.procs, k, job.size);
    forall h, j: nat | 0 <= h < |job.procs| && j < |SendOrder(TreeOf(job))| && InAt(net, h, j).Some?
      ensures AcceptsIn(net, u, h, j)
    {
      TraceHolds(net, u[0], u, TreeOf(job), job.root, data, j);
      RoundHolds(net, u[0], u, TreeOf(job), job.root, data, j, h);
    }
  }

  /** After the messages the root's host has all pieces, in the order in which the root reads them. */
  lemma {:induction false} StripeEnds<T>(job: Job<T>, writes: seq<seq<seq<nat>>>, init: seq<Host<seq<T>, seq<T>>>,
                                         t: seq<seq<Host<seq<T>, seq<T>>>>, k: nat)
    requires ValidJob(job) && StripedRun(job, writes, init, t) && k < |writes|
    requires Base(k + 1, |SendOrder(TreeOf(job))|) < |t|
    requires Started(job, writes, t, k)
    ensures Flat(Pieces(job.data, k, job.size), ReadOrder(job)) <=
      StripeAt(job, writes, t, k)[|SendOrder(TreeOf(job))|][job.root]
  {
    hide SendOrder, RunOf, AllConsistent, IsTrace, Consistent, GatherPlan, RunsGather, Flat, Walk, CollectedData;
    StripeTrace(job, writes, init, t, k);
    var net, u := PhaseOf(GatherPlan(job, writes), k), StripeAt(job, writes, t, k);
    var sh, len, data := TreeOf(job), |SendOrder(TreeOf(job))|, StripeData(job.data, job.procs, k, job.size);
    TraceHolds(net, u[0], u, sh, job.root, data, len);
    ModuloForms(job.root, job.root, sh.n);
    assert HoldsAt(sh, Shifted(data, job.root), u[len][job.root], ToRelative(job.root, job.root, sh.n), len);
    FinalData(sh, Shifted(data, job.root), 0);
    RootWalkIsPermutation(sh, true);
    ReadersFind(Pieces(job.data, k, job.size), job.procs, Walk(sh, 0, true), job.root);
  }

  lemma {:induction false} RoomStays<T>(job: Job<T>, writes: seq<seq<seq<nat>>>, init: seq<Host<seq<T>, seq<T>>>,
                                        t: seq<seq<Host<seq<T>, seq<T>>>>, k: nat)
    requires ValidJob(job) && StripedRun(job, writes, init, t) && k < |writes|
    requires Base(k + 1, |SendOrder(TreeOf(job))|) < |t|
    requires HasRoom(t[Base(k, |SendOrder(TreeOf(job))|)], |job.data| * job.size)
    ensures HasRoom(t[Base(k + 1, |SendOrder(TreeOf(job))|)], |job.data| * job.size)
  {
    hide SendOrder, RunOf, AllConsistent, IsTrace, Consistent, GatherPlan, StripeData, Bytes, AllWrite, CopiedOut,
      IsPlacement;
    var b, len := Base(k, |SendOrder(TreeOf(job))|), |SendOrder(TreeOf(job))|;
    var next := t[Base(k + 1, len)];
    forall h | 0 <= h < |next|
      ensures |next[h].shared| >= |job.data| * job.size
    {
      AfterWriters(job, writes, init, t, k, h);
      HostStarts(job, writes, init, t, k, h);
      StripeTrace(job, writes, init, t, k);
      var net, u := PhaseOf(GatherPlan(job, writes), k), StripeAt(job, writes, t, k);
      TraceLengths(net, u[0], u, len, h);
      assert u[len][h] == t[b + 1 + len][h].shared;
    }
  }

  /** In stripe k the root adds the pieces of stripe k. */
  lemma {:induction false} RootCopies<T>(job: Job<T>, writes: seq<seq<seq<nat>>>, init: seq<Host<seq<T>, seq<T>>>,
                                         t: seq<seq<Host<seq<T>, seq<T>>>>, k: nat)
    requires ValidJob(job) && StripedRun(job, writes, init, t) && k < |writes|
    requires Base(k + 1, |SendOrder(TreeOf(job))|) < |t|
    requires Flat(Pieces(job.data, k, job.size), ReadOrder(job)) <=
             StripeAt(job, writes, t, k)[|SendOrder(TreeOf(job))|][job.root]
    ensures t[Base(k + 1, |SendOrder(TreeOf(job))|)][job.root].own ==
      Placed(t[Base(k, |SendOrder(TreeOf(job))|)][job.root].own, StripeOffsets(job.displs, k, job.size),
             Pieces(job.data, k, job.size), ReadOrder(job))
  {
    hide SendOrder, RunOf, AllConsistent, Consistent, GatherPlan, AllWrite, CopiedOut, Flat, Placed, ReadOrder,
      WriteAll;
    var b, len, ranks := Base(k, |SendOrder(TreeOf(job))|), |SendOrder(TreeOf(job))|, ReadOrder(job);
    AfterWriters(job, writes, init, t, k, job.root);
    OwnStays(GatherPlan(job, writes), init, t, k, len, job.root);
    PieceSizes(job.data, k, job.size);
    var st := t[b + 1 + len][job.root];
    assert st.shared == StripeAt(job, writes, t, k)[len][job.root];
    CopiedIsPlaced(st.own, st.shared, StripeOffsets(job.displs, k, job.size), Pieces(job.data, k, job.size), ranks,
                   |ranks|);
    assert ranks[..|ranks|] == ranks;
  }

  lemma {:induction false} StripeDone<T>(job: Job<T>, writes: seq<seq<seq<nat>>>, init: seq<Host<seq<T>, seq<T>>>,
                                         t: seq<seq<Host<seq<T>, seq<T>>>>, before: seq<T>, k: nat)
    requires ValidJob(job) && StripedRun(job, writes, init, t) && k < |writes|
    requires Base(k + 1, |SendOrder(TreeOf(job))|) < |t| && Separate(job.displs, Sizes(job.data), |before|)
    requires Ready(job, t[Base(k, |SendOrder(TreeOf(job))|)], before, k)
    ensures Ready(job, t[Base(k + 1, |SendOrder(TreeOf(job))|)], before, k + 1)
    ensures Consistent(PhaseOf(GatherPlan(job, writes), k))
    ensures InStep(GatherPlan(job, writes).phases[k], |job.procs|, |SendOrder(TreeOf(job))|)
    ensures PhaseAccepts(GatherPlan(job, writes), t, k)
  {
    hide SendOrder, RunOf, AllConsistent, Consistent, GatherPlan, AllWrite, Flat, Placed, ReadOrder, Started, HasRoom,
      Separate, Filled, PhaseAccepts, StripeAt, StripeData, AllInside;
    StripeStarts(job, writes, init, t, k);
    StripeAccepts(job, writes, init, t, k);
    StripeEnds(job, writes, init, t, k);
    RoomStays(job, writes, init, t, k);
    RootCopies(job, writes, init, t, k);
    var now := t[Base(k, |SendOrder(TreeOf(job))|)][job.root].own;
    FilledStep(now, before, job.data, job.displs, k, job.size, ReadOrder(job));
  }

  // ---------------------------------------------------------------- the collective

  lemma {:induction false} AllStripes<T>(job: Job<T>, writes: seq<seq<seq<nat>>>, init: seq<Host<seq<T>, seq<T>>>,
                                         t: seq<seq<Host<seq<T>, seq<T>>>>, before: seq<T>, k: nat)
    requires ValidJob(job) && StripedRun(job, writes, init, t) && k <= |writes|
    requires Separate(job.displs, Sizes(job.data), |before|) && Ready(job, init, before, 0)
    ensures Base(k, |SendOrder(TreeOf(job))|) < |t| && Ready(job, t[Base(k, |SendOrder(TreeOf(job))|)], before, k)
    decreases k
  {
    hide SendOrder, AllConsistent, GatherPlan, AllWrite, Ready, Separate, IsPlacement;
    BaseMonotone(k, |writes|, |SendOrder(TreeOf(job))|);
    if k > 0 {
      AllStripes(job, writes, init, t, before, k - 1);
      StripeDone(job, writes, init, t, before, k - 1);
    } else {
      TraceStart(PhaseNet(GatherPlan(job, writes)), init, t);
    }
  }

  lemma {:induction false} GatherPlanPairs<T>(job: Job<T>, writes: seq<seq<seq<nat>>>)
    requires ValidJob(job)
    ensures AllConsistent(GatherPlan(job, writes))
  {
    hide GatherPlan, ValidJob, RunsGather, Consistent;
    forall k | 0 <= k < |writes|
      ensures Consistent(PhaseOf(GatherPlan(job, writes), k))
    {
      StripeIsGather(job, writes, k);
    }
  }

  lemma {:induction false} RunIsStriped<T>(job: Job<T>, writes: seq<seq<seq<nat>>>, init: seq<Host<seq<T>, seq<T>>>)
    returns (t: seq<seq<Host<seq<T>, seq<T>>>>)
    requires ValidJob(job) && |init| == |job.procs|
    requires forall k :: 0 <= k < |writes| ==> AllWrite(job.procs, writes[k])
    ensures StripedRun(job, writes, init, t) && Consistent(PhaseNet(GatherPlan(job, writes)))
    ensures t == Trace(PhaseNet(GatherPlan(job, writes)), init)
    ensures MaxLength(PhaseNet(GatherPlan(job, writes)).scripts) == Base(|writes|, |SendOrder(TreeOf(job))|)
  {
    hide SendOrder, AllConsistent, GatherPlan, AllWrite, IsPlacement, Consistent, IsTrace;
    GatherPlanPairs(job, writes);
    t := TheRun(GatherPlan(job, writes), init);
    forall r | 0 <= r < |t|
      ensures |t[r]| == |job.procs|
    {
      TraceShape(PhaseNet(GatherPlan(job, writes)), init, t, r);
    }
  }

  /** The run of all stripes never waits for a message that does not fit, and ends with the gathered data. */
  lemma {:induction false} StripedRunGathers<T>(job: Job<T>, writes: seq<seq<seq<nat>>>,
                                                init: seq<Host<seq<T>, seq<T>>>, t: seq<seq<Host<seq<T>, seq<T>>>>)
    requires ValidJob(job) && |init| == |job.procs| && HasRoom(init, |job.data| * job.size)
    requires StripedRun(job, writes, init, t) && Consistent(PhaseNet(GatherPlan(job, writes)))
    requires t == Trace(PhaseNet(GatherPlan(job, writes)), init)
    requires MaxLength(PhaseNet(GatherPlan(job, writes)).scripts) == Base(|writes|, |SendOrder(TreeOf(job))|)
    requires Separate(job.displs, Sizes(job.data), |init[job.root].own|)
    ensures Accepting(PhaseNet(GatherPlan(job, writes)), init)
    ensures Base(|writes|, |SendOrder(TreeOf(job))|) < |t|
    ensures Ready(job, t[Base(|writes|, |SendOrder(TreeOf(job))|)], init[job.root].own, |writes|)
  {
    hide SendOrder, AllConsistent, GatherPlan, AllWrite, IsPlacement, Consistent, RunOf, PhaseAccepts, Ready, Filled,
      HasRoom, AllInside;
    var before := init[job.root].own;
    ReadyAtStart(job, init);
    forall k | 0 <= k < |writes|
      ensures Consistent(PhaseOf(GatherPlan(job, writes), k))
      ensures InStep(GatherPlan(job, writes).phases[k], |job.procs|, |SendOrder(TreeOf(job))|)
      ensures Base(k, |SendOrder(TreeOf(job))|) + |SendOrder(TreeOf(job))| + 1 < |t|
      ensures PhaseAccepts(GatherPlan(job, writes), t, k)
    {
      AllStripes(job, writes, init, t, before, k);
      AllStripes(job, writes, init, t, before, k + 1);
      StripeDone(job, writes, init, t, before, k);
    }
    AllAccepted(GatherPlan(job, writes), init, t);
    AllStripes(job, writes, init, t, before, |writes|);
  }

  lemma {:induction false} ReadyAtStart<T>(job: Job<T>, init: seq<Host<seq<T>, seq<T>>>)
    requires ValidJob(job) && |init| == |job.procs| && HasRoom(init, |job.data| * job.size)
    requires Separate(job.displs, Sizes(job.data), |init[job.root].own|)
    ensures Ready(job, init, init[job.root].own, 0)
  {
    hide Filled, IsPlacement, HasRoom;
    FilledAtStart(init[job.root].own, job.data, job.displs, job.size);
  }

  /**
   `ulm_gatherv`: whatever root, placement, displacements, bytes and stripe size, in whatever
   order the processes of a host write, and however the hosts' operations interleave, when all
   are performed the root's receive buffer has every rank's bytes at its displacement and is
   otherwise as it was; until then some host can go on, even with synchronous sends.
   */
  lemma {:induction false} GathervDelivers<T>(job: Job<T>, writes: seq<seq<seq<nat>>>, init: seq<Host<seq<T>, seq<T>>>,
                                              posted: seq<nat>)
    requires ValidJob(job) && |init| == |job.procs| && HasRoom(init, |job.data| * job.size)
    requires Separate(job.displs, Sizes(job.data), |init[job.root].own|)
    requires forall k :: 0 <= k < |writes| ==> AllWrite(job.procs, writes[k])
    requires InRange(Flat(job.procs, Ascending(|job.procs|)), |job.data|)
    requires IsStripeCount(Sizes(job.data), Flat(job.procs, Ascending(|job.procs|)), |writes|, job.size)
    ensures var net := PhaseNet(GatherPlan(job, writes)); Consistent(net) && Addressed(PostedBy(net.scripts))
    ensures var net := PhaseNet(GatherPlan(job, writes));
      var ops := PostedBy(net.scripts);
      var d := Perform(net, ops, Start(net, init), posted);
      if AllPerformed(ops, d)
      then |d.local[job.root].own| == |init[job.root].own| &&
           Gathered(d.local[job.root].own, init[job.root].own, job.data, job.displs)
      else exists h :: CanAct(net, ops, d, h, true)
  {
    hide SendOrder, AllConsistent, GatherPlan, AllWrite, IsPlacement, Consistent, StripedRun, Filled, HasRoom,
      AllInside, Gathered, Flat, Addressed, AllPerformed, CanAct, Perform, Separate, IsStripeCount;
    var t := RunIsStriped(job, writes, init);
    StripedRunGathers(job, writes, init, t);
    PhasesRun(GatherPlan(job, writes), init, posted);
    AscendingIsPermutation(|job.procs|);
    RanksInOrder(job.procs, Ascending(|job.procs|), |job.data|);
    var last := t[Base(|writes|, |SendOrder(TreeOf(job))|)];
    FilledAtEnd(last[job.root].own, init[job.root].own, job.data, job.displs, Flat(job.procs, Ascending(|job.procs|)),
                |writes|, job.size);
  }

  // ---------------------------------------------------------------- the host's loop

  /** What `StripeSizes` counts is what the hosts contribute. */
  lemma {:induction false} CountsAreSizes<T>(job: Job<T>, k: nat, dataToSendNow: seq<nat>)
    requires ValidJob(job) && |dataToSendNow| == |job.procs|
    requires forall h :: 0 <= h < |job.procs| ==>
      InRange(job.procs[h], |job.data|) &&
      dataToSendNow[h] == Bytes(PieceLens(Sizes(job.data), k, job.size), job.procs[h])
    ensures Shifted(dataToSendNow, job.root) == Sizes(Shifted(StripeData(job.data, job.procs, k, job.size), job.root))
  {
    hide Bytes, HostData, IsPlacement;
    forall h | 0 <= h < |job.procs|
      ensures dataToSendNow[h] == Sizes(StripeData(job.data, job.procs, k, job.size))[h]
    {
      LengthsMatch(job.data, job.procs, k, job.size, h);
    }
  }

  /**
   The stripe loop of `ulm_gatherv` on one host: the writers, the interhost gather with the
   host's counts for the stripe, and the copy out.
   */
  method UlmGatherv<T>(tree: Tree, gatherDataNodeList: seq<seq<nat>>, myHostRank: nat, rootHost: nat,
                       procs: seq<seq<nat>>, bytesPerProc: seq<nat>, perRankStripeSize: nat, ghost job: Job<T>)
    returns (numStripes: nat, ops: seq<Round<Deed<Segment>>>)
    requires ValidJob(job) && procs == job.procs && rootHost == job.root && bytesPerProc == Sizes(job.data)
    requires perRankStripeSize == job.size && myHostRank < |procs|
    requires GatherSetup(TreeOf(job), tree, gatherDataNodeList, rootHost, seq(|procs|, h => 0))
    ensures InRange(Flat(procs, Ascending(|procs|)), |bytesPerProc|)
    ensures IsStripeCount(bytesPerProc, Flat(procs, Ascending(|procs|)), numStripes, perRankStripeSize)
    ensures forall writes: seq<seq<seq<nat>>> :: |writes| == numStripes ==>
      ops == PostedBy(PhaseNet(GatherPlan(job, writes)).scripts)[myHostRank]
  {
    hide Active, SendOrder, Bytes, Flat, GatherScript, IsTree, Walk, Lift, StripeData, StripeScripts;
    numStripes := CountStripes(procs, bytesPerProc, perRankStripeSize);
    ops := [];
    ghost var n, len, phases := |procs|, |SendOrder(TreeOf(job))|, StripesOf(job, numStripes);
    PhasesInStep(job, numStripes);
    PostedFirst(phases, n, len, myHostRank);
    for stripeID := 0 to numStripes
      invariant Phased(phases, n, len)
      invariant ops == Active(ScriptUpto(phases, n, len, myHostRank, stripeID))
    {
      ops := ops + [OwnRound(myHostRank, stripeID, 0)];
      var dataToSendNow := StripeSizes(procs, bytesPerProc, stripeID, perRankStripeSize);
      CountsAreSizes(job, stripeID, dataToSendNow);
      var exchange := UlmGatherInterhost(tree, gatherDataNodeList, myHostRank, rootHost, dataToSendNow, TreeOf(job));
      assert exchange == Active(phases[stripeID][myHostRank]);
      ops := ops + Lift(exchange) + [OwnRound(myHostRank, stripeID, 1)];
      PostedPhase(phases, n, len, myHostRank, stripeID);
    }
  }
}
