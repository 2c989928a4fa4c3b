/**
 `ulm_allgathervMultipleStripes` with all processes of all hosts, and the messages between the
 hosts, interleaved in every way.
 */
module AllGatherVRun {
  import opened Layout
  import opened Network
  import opened Phases
  import opened Stripes
  import opened Placement
  import opened CopyOut
  import opened StripedGather
  import opened StripeExchange
  import opened StripeRun
  import opened AllGatherV
  import GatherLoop
  import HostLoop
  import WholeRun

  /** Process p of host h copies stripe k out. */
  ghost function ReadOne<T>(job: Job<T>, h: nat, k: nat, p: nat, shared: seq<T>, buf: seq<T>): seq<T>
    requires ValidJob(job)
  {
    if h < |job.procs| && p < |job.procs[h]| then
      PlacedRanks(job.procs, |job.data|, h);
      CopiedOut(buf, shared, StripeOffsets(job.displs[job.procs[h][p]], k, job.size),
                PieceLens(Sizes(job.data), k, job.size), ReadOrder(job, h))
    else buf
  }

  /** The buffers have room, and every host has a process. */
  ghost predicate Prepared<T>(job: Job<T>, init: seq<Node<T>>) {
    && ValidJob(job) && Receives(job, init) && HasRoom(init, |job.data| * job.size)
    && forall h :: 0 <= h < |job.procs| ==> job.procs[h] != []
  }

  type Whole<!T> = WholeRun.Collective<Segment, seq<T>, seq<seq<T>>, seq<T>, seq<T>>

  /** Process 0 of every host exchanges, and resets the flag. */
  ghost function Parts<T>(job: Job<T>, init: seq<Node<T>>, stripes: nat): Whole<T>
    requires Prepared(job, init)
  {
    WholeRun.Collective(
      AllgatherPlan(job, Orders(job.procs, stripes)), init,
      seq(|job.procs|, h requires 0 <= h < |job.procs| => |job.procs[h]|),
      seq(|job.procs|, h => HostLoop.Gather(GatherLoop.Loop(stripes, 0))),
      (h: nat, k: nat, p: nat, buf: seq<T>) => WriteOne(job.data, job.procs, job.size, h, k, p, buf),
      (h: nat, k: nat, p: nat, shared: seq<T>, buf: seq<T>) => ReadOne(job, h, k, p, shared, buf),
      (h: nat, p: nat, own: seq<seq<T>>) => if p < |own| then own[p] else [])
  }

  lemma {:induction false} PartsFit<T>(job: Job<T>, init: seq<Node<T>>, stripes: nat)
    requires Prepared(job, init)
    ensures var w := Parts(job, init, stripes);
      && WholeRun.Sized(w) && w.plan.n == |job.procs| && w.plan.len == Len(job) && WholeRun.StripeCount(w) == stripes
      && |w.nproc| == |job.procs| && (forall h :: 0 <= h < |job.procs| ==> w.nproc[h] == |job.procs[h]|)
  {
    hide AllgatherPlan, IsPlacement, HasRoom, AllConsistent, WriteOne, ReadOne;
    AllgatherPlanPairs(job, Orders(job.procs, stripes));
  }

  /** The collective, with all its processes. */
  ghost function TheWhole<T>(job: Job<T>, init: seq<Node<T>>, stripes: nat): (w: Whole<T>)
    requires Prepared(job, init)
    ensures WholeRun.Sized(w) && w.plan.n == |job.procs| && w.plan.len == Len(job) && WholeRun.StripeCount(w) == stripes
    ensures |w.nproc| == |job.procs| && forall h :: 0 <= h < |job.procs| ==> w.nproc[h] == |job.procs[h]|
  {
    PartsFit(job, init, stripes);
    Parts(job, init, stripes)
  }

  lemma {:induction false} Writers<T>(job: Job<T>, init: seq<Node<T>>, stripes: nat, h: nat, k: nat)
    requires Prepared(job, init)
    ensures forall p, b {:trigger TheWhole(job, init, stripes).write(h, k, p, b)} ::
      TheWhole(job, init, stripes).write(h, k, p, b) == WriteOne(job.data, job.procs, job.size, h, k, p, b)
  {
    hide AllgatherPlan, WriteOne, WholeRun.Sized, Receives, HasRoom, IsPlacement;
  }

  lemma {:induction false} PlanOfWhole<T>(job: Job<T>, init: seq<Node<T>>, stripes: nat)
    requires Prepared(job, init)
    ensures WholeRun.Planned(TheWhole(job, init, stripes)) == PhaseNet(AllgatherPlan(job, Orders(job.procs, stripes)))
  {
    hide AllgatherPlan, WholeRun.Sized, Receives, HasRoom, IsPlacement;
  }

  /** The round-by-round run of the plan. */
  lemma {:induction false} TheStripes<T>(job: Job<T>, init: seq<Node<T>>, stripes: nat) returns (t: seq<seq<Node<T>>>)
    requires Prepared(job, init)
    ensures StripedRun(job, Orders(job.procs, stripes), init, t)
    ensures Accepting(WholeRun.Planned(TheWhole(job, init, stripes)), init) && Ready(job, init, init, 0)
    ensures t == Trace(WholeRun.Planned(TheWhole(job, init, stripes)), init)
  {
    hide AllgatherPlan, IsPlacement, HasRoom, AllConsistent, StripedRun, Ready, TheWhole, WholeRun.Planned, AllWrite,
      Trace, Consistent, Receives, WholeRun.Sized;
    var writes := Orders(job.procs, stripes);
    AllInOrder(job.procs);
    Hosts(job, init);
    PlanOfWhole(job, init, stripes);
    t := RunIsStriped(job, writes, init);
    StripedRunGathers(job, writes, init, t);
    ReadyAtStart(job, init);
  }

  lemma {:induction false} AtRound<T>(job: Job<T>, init: seq<Node<T>>, stripes: nat, t: seq<seq<Node<T>>>, r: nat)
    requires Prepared(job, init) && r < |t|
    requires t == Trace(WholeRun.Planned(TheWhole(job, init, stripes)), init)
    ensures WholeRun.ByRounds(TheWhole(job, init, stripes), r) == t[r]
  {
    hide WholeRun.Sized, WholeRun.Planned, AllgatherPlan, Sync, Prepared;
  }

  /** In the plan, all processes of host h write stripe k, in whatever order. */
  lemma {:induction false} WritersOfStripe<T>(job: Job<T>, init: seq<Node<T>>, stripes: nat, t: seq<seq<Node<T>>>,
                                              h: nat, k: nat)
    requires Prepared(job, init)
    requires StripedRun(job, Orders(job.procs, stripes), init, t) && Ready(job, init, init, 0)
    requires t == Trace(WholeRun.Planned(TheWhole(job, init, stripes)), init) && h < |job.procs| && k < stripes
    ensures WholeRun.WritesFit(TheWhole(job, init, stripes), h, k)
  {
    hide AllgatherPlan, IsPlacement, StripedRun, WholeRun.Planned, AllWrite, WholeRun.ByRounds, Trace, Receives,
      WholeRun.Sized, WriteAll, WholeRun.Written, ProcReady, IsPermutation, OwnStep, WriteOne;
    var w, b, writes := TheWhole(job, init, stripes), Base(k, Len(job)), Orders(job.procs, stripes);
    AllStripes(job, writes, init, t, k);
    AllStripes(job, writes, init, t, k + 1);
    OwnStepsOf(job, writes, init, t, k, h);
    AtRound(job, init, stripes, t, b);
    AtRound(job, init, stripes, t, b + 1);
    Writers(job, init, stripes, h, k);
    forall order | IsPermutation(order, w.nproc[h])
      ensures t[b + 1][h].shared == WholeRun.Written(w, h, k, order, t[b][h].shared)
    {
      AnyOrderWrites(w, job.data, job.procs, job.size, h, k, order, t[b][h].shared);
    }
  }

  /** And all of them copy it out. */
  lemma {:induction false} ReadersOfStripe<T>(job: Job<T>, init: seq<Node<T>>, stripes: nat, t: seq<seq<Node<T>>>,
                                              h: nat, k: nat)
    requires Prepared(job, init)
    requires StripedRun(job, Orders(job.procs, stripes), init, t) && Ready(job, init, init, 0)
    requires t == Trace(WholeRun.Planned(TheWhole(job, init, stripes)), init) && h < |job.procs| && k < stripes
    ensures WholeRun.ReadsFit(TheWhole(job, init, stripes), h, k)
  {
    hide AllgatherPlan, IsPlacement, StripedRun, WholeRun.Planned, AllWrite, WholeRun.ByRounds, Trace, Receives,
      WholeRun.Sized, WriteAll, HasRoom, ProcReady, OwnStep, ReadOne;
    var b, len, writes := Base(k, Len(job)), Len(job), Orders(job.procs, stripes);
    var w := TheWhole(job, init, stripes);
    AllStripes(job, writes, init, t, k);
    AllStripes(job, writes, init, t, k + 1);
    OwnStepsOf(job, writes, init, t, k, h);
    Middle(job, writes, init, t, k, h);
    AtRound(job, init, stripes, t, b);
    AtRound(job, init, stripes, t, b + len + 1);
    AtRound(job, init, stripes, t, b + len + 2);
    CopiesOne(job, writes, t[b + len + 1][h], h, k, 0);
    forall p | 0 <= p < w.nproc[h]
      ensures w.view(h, p, t[b + len + 2][h].own) ==
        w.read(h, k, p, t[b + len + 2][h].shared, w.view(h, p, t[b][h].own))
    {
      CopiesOne(job, writes, t[b + len + 1][h], h, k, p);
    }
  }

  /** What the copy out of all does for one. */
  lemma {:induction false} CopiesOne<T>(job: Job<T>, writes: seq<seq<seq<nat>>>, st: Node<T>, h: nat, k: nat, p: nat)
    requires ValidJob(job) && h < |job.procs| && p < |job.procs[h]| == |st.own|
    ensures var after := OwnStep(job, writes, h, k, 1, st);
      && after.shared == st.shared && |after.own| == |st.own|
      && after.own[p] == ReadOne(job, h, k, p, st.shared, st.own[p])
  {
    hide IsPlacement, CopiedOut, PieceLens, StripeOffsets, ReadOrder;
    PlacedRanks(job.procs, |job.data|, h);
  }

  /** The processes one by one do what the plan does. */
  lemma {:induction false} WholeIsValid<T>(job: Job<T>, init: seq<Node<T>>, stripes: nat)
    returns (t: seq<seq<Node<T>>>)
    requires Prepared(job, init)
    ensures WholeRun.Valid(TheWhole(job, init, stripes))
    ensures StripedRun(job, Orders(job.procs, stripes), init, t) && Ready(job, init, init, 0)
    ensures t == Trace(WholeRun.Planned(TheWhole(job, init, stripes)), init)
  {
    hide AllgatherPlan, IsPlacement, StripedRun, WholeRun.Planned, Trace, Receives, WholeRun.Sized, Ready, Accepting,
      WholeRun.WritesFit, WholeRun.ReadsFit;
    var w := TheWhole(job, init, stripes);
    t := TheStripes(job, init, stripes);
    forall h, k | 0 <= h < |job.procs| && 0 <= k < stripes
      ensures WholeRun.StripeFits(w, h, k)
    {
      WritersOfStripe(job, init, stripes, t, h, k);
      ReadersOfStripe(job, init, stripes, t, h, k);
    }
  }

  /** The receive buffers stay as they are while a stripe is exchanged. */
  lemma {:induction false} Middle<T>(job: Job<T>, writes: seq<seq<seq<nat>>>, init: seq<Node<T>>, t: seq<seq<Node<T>>>,
                                     k: nat, h: nat)
    requires ValidJob(job) && StripedRun(job, writes, init, t) && k < |writes| && h < |job.procs|
    requires Base(k + 1, Len(job)) < |t|
    ensures t[Base(k, Len(job)) + Len(job) + 1][h].own == t[Base(k, Len(job)) + 1][h].own
  {
    hide AllgatherPlan, RunOf, IsPlan, AllConsistent, AllWrite;
    OwnStays(AllgatherPlan(job, writes), init, t, k, Len(job), h);
  }

  // ---------------------------------------------------------------- the collective

  /**
   In every run of all processes of all hosts, with every interleaving of their writes, flags,
   barriers, messages and reads, a process that is done has every rank's bytes at the displacement
   it asked for, and its receive buffer is otherwise as it was; until all are done somebody can go
   on, even with synchronous sends.
   */
  lemma {:induction false} AllProcessesGather<T>(job: Job<T>, init: seq<Node<T>>, stripes: nat,
                                                 s: WholeRun.State<seq<T>, seq<seq<T>>, seq<T>, seq<T>>,
                                                 sched: seq<(nat, nat)>)
    requires Prepared(job, init) && InRange(Flat(job.procs, Ascending(|job.procs|)), |job.data|)
    requires IsStripeCount(Sizes(job.data), Flat(job.procs, Ascending(|job.procs|)), stripes, job.size)
    requires WholeRun.Initial(TheWhole(job, init, stripes), s)
    ensures var w, s' := TheWhole(job, init, stripes), WholeRun.Run(TheWhole(job, init, stripes), s, sched);
      forall h, i :: 0 <= h < |job.procs| && 0 <= i < |job.procs[h]| && WholeRun.Finished(w, s', h, i) ==>
        HasBytes(job, init, h, i, s'.mem[h][i])
    ensures var w, s' := TheWhole(job, init, stripes), WholeRun.Run(TheWhole(job, init, stripes), s, sched);
      || (forall h, i :: 0 <= h < |job.procs| && 0 <= i < |job.procs[h]| ==> WholeRun.Finished(w, s', h, i))
      || exists h, i :: WholeRun.Enabled(w, s', h, i, true)
  {
    hide AllgatherPlan, IsPlacement, WholeRun.Sized, WholeRun.Valid, WholeRun.Run, HasBytes, Flat,
      IsStripeCount, Receives, StripedRun, Trace, Ready, WholeRun.Planned, WholeRun.Enabled, WholeRun.Finished;
    var w := TheWhole(job, init, stripes);
    var t := WholeIsValid(job, init, stripes);
    var s' := WholeRun.Run(w, s, sched);
    forall h, i | 0 <= h < |job.procs| && 0 <= i < |job.procs[h]| && WholeRun.Finished(w, s', h, i)
      ensures HasBytes(job, init, h, i, s'.mem[h][i])
    {
      WholeRun.WholeRunAgrees(w, s, sched, h, i);
      EndHasBytes(job, init, stripes, t, h, i);
    }
    WholeRun.WholeRunNeverStuck(w, s, sched);
  }

  /** Every rank's bytes are in the buffer of the i-th process of host h. */
  ghost predicate HasBytes<T>(job: Job<T>, init: seq<Node<T>>, h: nat, i: nat, buf: seq<T>)
    requires ValidJob(job) && Receives(job, init) && h < |job.procs| && i < |job.procs[h]|
  {
    var r := job.procs[h][i];
    assert Separate(job.displs[r], Sizes(job.data), |init[h].own[i]|);
    |buf| == |init[h].own[i]| && Gathered(buf, init[h].own[i], job.data, job.displs[r])
  }

  lemma {:induction false} EndHasBytes<T>(job: Job<T>, init: seq<Node<T>>, stripes: nat, t: seq<seq<Node<T>>>, h: nat,
                                          i: nat)
    requires Prepared(job, init) && InRange(Flat(job.procs, Ascending(|job.procs|)), |job.data|)
    requires IsStripeCount(Sizes(job.data), Flat(job.procs, Ascending(|job.procs|)), stripes, job.size)
    requires h < |job.procs| && i < |job.procs[h]|
    requires StripedRun(job, Orders(job.procs, stripes), init, t) && Ready(job, init, init, 0)
    requires t == Trace(WholeRun.Planned(TheWhole(job, init, stripes)), init)
    ensures var w := TheWhole(job, init, stripes);
      HasBytes(job, init, h, i, w.view(h, i, WholeRun.ByRounds(w, Base(stripes, Len(job)))[h].own))
  {
    hide AllgatherPlan, IsPlacement, WholeRun.Sized, Flat, IsStripeCount, StripedRun, Trace, WholeRun.Planned, HasRoom,
      ProcReady, Gathered, WholeRun.ByRounds, Separate;
    AllStripes(job, Orders(job.procs, stripes), init, t, stripes);
    var last := t[Base(stripes, Len(job))];
    AtRound(job, init, stripes, t, Base(stripes, Len(job)));
    assert ProcReady(job, last[h], init, h, i, stripes);
    ProcHasAll(job, last[h], init, h, i, stripes);
  }
}
