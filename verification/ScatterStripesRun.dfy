/**
 `ulm_scatter` with all processes of all hosts, and the messages between the hosts, interleaved
 in every way.
 */
module ScatterStripesRun {
  import opened Layout
  import opened Network
  import opened Phases
  import opened Placement
  import opened Scatter
  import opened ScatterStripes
  import HostLoop
  import WholeRun

  /** Every process's count is right, and the buffers have room. */
  ghost predicate Prepared<T>(job: Job, sendbuf: seq<T>, init: seq<Node<T>>) {
    ValidJob(job) && RightCounts(job) && Fits(job, sendbuf, init)
  }

  /** The place of the root among the processes of its host. */
  ghost function RootIndex(job: Job): (i: nat)
    requires ValidJob(job)
    ensures i < |job.procs[job.rootHost]| && job.procs[job.rootHost][i] == job.root
  {
    var i :| 0 <= i < |job.procs[job.rootHost]| && job.procs[job.rootHost][i] == job.root;
    i
  }

  ghost function LoopOf(job: Job, h: nat): HostLoop.Loop
    requires ValidJob(job)
  {
    HostLoop.Scatter(NumStripes(job), if h == job.rootHost then Some(RootIndex(job)) else None)
  }

  /** The root packs stripe k. */
  ghost function WriteOne<T>(job: Job, sendbuf: seq<T>, h: nat, k: nat, p: nat, buf: seq<T>): seq<T>
    requires ValidJob(job)
  {
    if h == job.rootHost then Write(buf, 0, Packed(job, sendbuf, k)) else buf
  }

  /** Process p of host h copies its slice of stripe k, by its own count. */
  ghost function ReadOne<T>(job: Job, h: nat, k: nat, p: nat, shared: seq<T>, buf: seq<T>): seq<T>
    requires ValidJob(job)
  {
    if h < |job.procs| && p < |job.procs[h]| then
      PlacedRanks(job.procs, |job.counts|, h);
      Sliced(buf, shared, p, job.counts[job.procs[h][p]], k, job.size)
    else buf
  }

  type Whole<!T> = WholeRun.Collective<Segment, seq<T>, seq<seq<T>>, seq<T>, seq<T>>

  ghost function Parts<T>(job: Job, sendbuf: seq<T>, init: seq<Node<T>>): Whole<T>
    requires Prepared(job, sendbuf, init)
  {
    WholeRun.Collective(
      ScatterPlan(job, sendbuf), init,
      seq(|job.procs|, h requires 0 <= h < |job.procs| => |job.procs[h]|),
      seq(|job.procs|, h requires 0 <= h < |job.procs| => LoopOf(job, h)),
      (h: nat, k: nat, p: nat, buf: seq<T>) => WriteOne(job, sendbuf, h, k, p, buf),
      (h: nat, k: nat, p: nat, shared: seq<T>, buf: seq<T>) => ReadOne(job, h, k, p, shared, buf),
      (h: nat, p: nat, own: seq<seq<T>>) => if p < |own| then own[p] else [])
  }

  lemma {:induction false} PartsFit<T>(job: Job, sendbuf: seq<T>, init: seq<Node<T>>)
    requires Prepared(job, sendbuf, init)
    ensures var w := Parts(job, sendbuf, init);
      && WholeRun.Sized(w) && w.plan.n == |job.procs| && w.plan.len == Len(job)
      && WholeRun.StripeCount(w) == NumStripes(job)
      && |w.nproc| == |job.procs| && (forall h :: 0 <= h < |job.procs| ==> w.nproc[h] == |job.procs[h]|)
  {
    hide ScatterPlan, IsPlacement, HasRoom, AllConsistent, WriteOne, ReadOne, NumStripes, RightCounts;
    ScatterPlanPairs(job, sendbuf);
  }

  /** The collective, with all its processes. */
  ghost function TheWhole<T>(job: Job, sendbuf: seq<T>, init: seq<Node<T>>): (w: Whole<T>)
    requires Prepared(job, sendbuf, init)
    ensures WholeRun.Sized(w) && w.plan.n == |job.procs| && w.plan.len == Len(job)
    ensures WholeRun.StripeCount(w) == NumStripes(job)
    ensures |w.nproc| == |job.procs| && forall h :: 0 <= h < |job.procs| ==> w.nproc[h] == |job.procs[h]|
  {
    PartsFit(job, sendbuf, init);
    Parts(job, sendbuf, init)
  }

  lemma {:induction false} PlanOfWhole<T>(job: Job, sendbuf: seq<T>, init: seq<Node<T>>)
    requires Prepared(job, sendbuf, init)
    ensures WholeRun.Planned(TheWhole(job, sendbuf, init)) == PhaseNet(ScatterPlan(job, sendbuf))
  {
    hide ScatterPlan, WholeRun.Sized, Prepared, NumStripes;
  }

  /** The round-by-round run of the plan. */
  lemma {:induction false} TheStripes<T>(job: Job, sendbuf: seq<T>, init: seq<Node<T>>) returns (t: seq<seq<Node<T>>>)
    requires Prepared(job, sendbuf, init)
    ensures StripedRun(job, sendbuf, init, t) && Ready(job, sendbuf, init, init, 0)
    ensures Accepting(WholeRun.Planned(TheWhole(job, sendbuf, init)), init)
    ensures t == Trace(WholeRun.Planned(TheWhole(job, sendbuf, init)), init)
  {
    hide ScatterPlan, IsPlacement, HasRoom, AllConsistent, StripedRun, Ready, TheWhole, WholeRun.Planned, Trace,
      Consistent, WholeRun.Sized, NumStripes, RightCounts;
    PlanOfWhole(job, sendbuf, init);
    t := RunIsStriped(job, sendbuf, init);
    StripedRunScatters(job, sendbuf, init, t);
    ReadyAtStart(job, sendbuf, init);
  }

  lemma {:induction false} AtRound<T>(job: Job, sendbuf: seq<T>, init: seq<Node<T>>, t: seq<seq<Node<T>>>, r: nat)
    requires Prepared(job, sendbuf, init) && r < |t|
    requires t == Trace(WholeRun.Planned(TheWhole(job, sendbuf, init)), init)
    ensures WholeRun.ByRounds(TheWhole(job, sendbuf, init), r) == t[r]
  {
    hide WholeRun.Sized, WholeRun.Planned, ScatterPlan, Sync, Prepared, NumStripes;
  }

  /** In the plan, the root of host h packs stripe k, if it has one. */
  lemma {:induction false} WritersOfStripe<T>(job: Job, sendbuf: seq<T>, init: seq<Node<T>>, t: seq<seq<Node<T>>>,
                                              h: nat, k: nat)
    requires Prepared(job, sendbuf, init) && StripedRun(job, sendbuf, init, t) && Ready(job, sendbuf, init, init, 0)
    requires t == Trace(WholeRun.Planned(TheWhole(job, sendbuf, init)), init) && h < |job.procs| && k < NumStripes(job)
    ensures WholeRun.WritesFit(TheWhole(job, sendbuf, init), h, k)
  {
    hide ScatterPlan, IsPlacement, StripedRun, WholeRun.Planned, WholeRun.ByRounds, Trace, WholeRun.Sized, ProcReady,
      NumStripes, RightCounts, Write, Packed, Ready;
    var w, b := TheWhole(job, sendbuf, init), Base(k, Len(job));
    AllStripes(job, sendbuf, init, t, k + 1);
    BaseMonotone(k, k + 1, Len(job));
    OwnStepsOf(job, sendbuf, init, t, k, h);
    AtRound(job, sendbuf, init, t, b);
    AtRound(job, sendbuf, init, t, b + 1);
    forall order | HostLoop.Complete(w.loops[h], w.nproc[h], order)
      ensures t[b + 1][h].shared == WholeRun.Written(w, h, k, order, t[b][h].shared)
    {
      OneWriter(w, h, k, order, t[b][h].shared);
    }
  }

  lemma {:induction false} OneWriter<A, S, Y, M, X>(w: WholeRun.Collective<A, S, Y, M, X>, h: nat, k: nat,
                                                    order: seq<nat>, buf: S)
    ensures order == [] ==> WholeRun.Written(w, h, k, order, buf) == buf
    ensures |order| == 1 ==> WholeRun.Written(w, h, k, order, buf) == w.write(h, k, order[0], buf)
  {
    if |order| == 1 {
      assert order[..0] == [];
    }
  }

  /** And all processes copy their slices. */
  lemma {:induction false} ReadersOfStripe<T>(job: Job, sendbuf: seq<T>, init: seq<Node<T>>, t: seq<seq<Node<T>>>,
                                              h: nat, k: nat)
    requires Prepared(job, sendbuf, init) && StripedRun(job, sendbuf, init, t) && Ready(job, sendbuf, init, init, 0)
    requires t == Trace(WholeRun.Planned(TheWhole(job, sendbuf, init)), init) && h < |job.procs| && k < NumStripes(job)
    ensures WholeRun.ReadsFit(TheWhole(job, sendbuf, init), h, k)
  {
    hide ScatterPlan, IsPlacement, StripedRun, WholeRun.Planned, WholeRun.ByRounds, Trace, WholeRun.Sized, ProcReady,
      NumStripes, RightCounts, OwnStep, ReadOne, HasRoom;
    var w, b, len := TheWhole(job, sendbuf, init), Base(k, Len(job)), Len(job);
    AllStripes(job, sendbuf, init, t, k);
    AllStripes(job, sendbuf, init, t, k + 1);
    OwnStepsOf(job, sendbuf, init, t, k, h);
    Middle(job, sendbuf, init, t, k, h);
    AtRound(job, sendbuf, init, t, b);
    AtRound(job, sendbuf, init, t, b + len + 1);
    AtRound(job, sendbuf, init, t, b + len + 2);
    CopiesOne(job, sendbuf, t[b + len + 1][h], h, k, 0);
    forall p | 0 <= p < w.nproc[h]
      ensures w.view(h, p, t[b + len + 2][h].own) ==
        w.read(h, k, p, t[b + len + 2][h].shared, w.view(h, p, t[b][h].own))
    {
      CopiesOne(job, sendbuf, t[b + len + 1][h], h, k, p);
    }
  }

  /** What the copies of all do for one. */
  lemma {:induction false} CopiesOne<T>(job: Job, sendbuf: seq<T>, st: Node<T>, h: nat, k: nat, p: nat)
    requires ValidJob(job) && h < |job.procs| && p < |job.procs[h]| == |st.own|
    ensures var after := OwnStep(job, sendbuf, h, k, 1, st);
      && after.shared == st.shared && |after.own| == |st.own|
      && after.own[p] == ReadOne(job, h, k, p, st.shared, st.own[p])
  {
    hide IsPlacement, Sliced;
    PlacedRanks(job.procs, |job.counts|, h);
  }

  /** The processes' memories stay as they are while a stripe is packed and exchanged. */
  lemma {:induction false} Middle<T>(job: Job, sendbuf: seq<T>, init: seq<Node<T>>, t: seq<seq<Node<T>>>, k: nat,
                                     h: nat)
    requires ValidJob(job) && StripedRun(job, sendbuf, init, t) && k < NumStripes(job) && h < |job.procs|
    requires Base(k + 1, Len(job)) < |t|
    ensures t[Base(k, Len(job)) + Len(job) + 1][h].own == t[Base(k, Len(job))][h].own
  {
    hide ScatterPlan, RunOf, IsPlan, AllConsistent, NumStripes, Packed, IsPlacement, Write;
    OwnStepsOf(job, sendbuf, init, t, k, h);
    OwnStays(ScatterPlan(job, sendbuf), init, t, k, Len(job), h);
  }

  /** The processes one by one do what the plan does. */
  lemma {:induction false} WholeIsValid<T>(job: Job, sendbuf: seq<T>, init: seq<Node<T>>) returns (t: seq<seq<Node<T>>>)
    requires Prepared(job, sendbuf, init)
    ensures WholeRun.Valid(TheWhole(job, sendbuf, init))
    ensures StripedRun(job, sendbuf, init, t) && Ready(job, sendbuf, init, init, 0)
    ensures t == Trace(WholeRun.Planned(TheWhole(job, sendbuf, init)), init)
  {
    hide ScatterPlan, IsPlacement, StripedRun, WholeRun.Planned, Trace, WholeRun.Sized, Ready, Accepting, NumStripes,
      WholeRun.WritesFit, WholeRun.ReadsFit, RightCounts, HasRoom;
    var w := TheWhole(job, sendbuf, init);
    t := TheStripes(job, sendbuf, init);
    forall h, k | 0 <= h < |job.procs| && 0 <= k < NumStripes(job)
      ensures WholeRun.StripeFits(w, h, k)
    {
      WritersOfStripe(job, sendbuf, init, t, h, k);
      ReadersOfStripe(job, sendbuf, init, t, h, k);
    }
  }

  // ---------------------------------------------------------------- the collective

  /** The i-th process of host h has exactly the bytes for it, and nothing else of its memory has changed. */
  ghost predicate HasBytes<T>(job: Job, sendbuf: seq<T>, init: seq<Node<T>>, h: nat, i: nat, buf: seq<T>)
    requires Prepared(job, sendbuf, init) && h < |job.procs| && i < |job.procs[h]|
  {
    Received(sendbuf, job.procs[h][i] * job.counts[job.root], job.recvBytes, buf, init[h].own[i])
  }

  /**
   If every count is right then in every run of all processes of all hosts, with every
   interleaving of the pack, the flags, barriers, messages and copies, a process that is done has
   exactly the bytes for it; until all are done somebody can go on, even with synchronous sends.
   */
  lemma {:induction false} AllProcessesScatter<T>(job: Job, sendbuf: seq<T>, init: seq<Node<T>>,
                                                  s: WholeRun.State<seq<T>, seq<seq<T>>, seq<T>, seq<T>>,
                                                  sched: seq<(nat, nat)>)
    requires Prepared(job, sendbuf, init) && WholeRun.Initial(TheWhole(job, sendbuf, init), s)
    ensures var w := TheWhole(job, sendbuf, init);
      var s' := WholeRun.Run(w, s, sched);
      forall h, i :: 0 <= h < |job.procs| && 0 <= i < |job.procs[h]| && WholeRun.Finished(w, s', h, i) ==>
        HasBytes(job, sendbuf, init, h, i, s'.mem[h][i])
    ensures var w := TheWhole(job, sendbuf, init);
      var s' := WholeRun.Run(w, s, sched);
      || (forall h, i :: 0 <= h < |job.procs| && 0 <= i < |job.procs[h]| ==> WholeRun.Finished(w, s', h, i))
      || exists h, i :: WholeRun.Enabled(w, s', h, i, true)
  {
    hide ScatterPlan, IsPlacement, WholeRun.Sized, WholeRun.Valid, WholeRun.Run, HasBytes, NumStripes, RightCounts,
      StripedRun, Trace, Ready, WholeRun.Planned, WholeRun.Enabled, WholeRun.Finished, HasRoom;
    var w := TheWhole(job, sendbuf, init);
    var t := WholeIsValid(job, sendbuf, init);
    var s' := WholeRun.Run(w, s, sched);
    forall h, i | 0 <= h < |job.procs| && 0 <= i < |job.procs[h]| && WholeRun.Finished(w, s', h, i)
      ensures HasBytes(job, sendbuf, init, h, i, s'.mem[h][i])
    {
      WholeRun.WholeRunAgrees(w, s, sched, h, i);
      EndHasBytes(job, sendbuf, init, t, h, i);
    }
    WholeRun.WholeRunNeverStuck(w, s, sched);
  }

  lemma {:induction false} EndHasBytes<T>(job: Job, sendbuf: seq<T>, init: seq<Node<T>>, t: seq<seq<Node<T>>>, h: nat,
                                          i: nat)
    requires Prepared(job, sendbuf, init) && h < |job.procs| && i < |job.procs[h]|
    requires StripedRun(job, sendbuf, init, t) && Ready(job, sendbuf, init, init, 0)
    requires t == Trace(WholeRun.Planned(TheWhole(job, sendbuf, init)), init)
    ensures var w := TheWhole(job, sendbuf, init);
      HasBytes(job, sendbuf, init, h, i, w.view(h, i, WholeRun.ByRounds(w, Base(NumStripes(job), Len(job)))[h].own))
  {
    hide ScatterPlan, IsPlacement, WholeRun.Sized, StripedRun, Trace, WholeRun.Planned, HasRoom, ProcReady, NumStripes,
      WholeRun.ByRounds, RightCounts, Received;
    AllStripes(job, sendbuf, init, t, NumStripes(job));
    var last := t[Base(NumStripes(job), Len(job))];
    AtRound(job, sendbuf, init, t, Base(NumStripes(job), Len(job)));
    assert ProcReady(job, sendbuf, last[h], init, h, i, NumStripes(job));
    ProcHasOwn(job, sendbuf, last[h], init, h, i);
  }
}
