/**
 `ulm_gatherv` with all processes of all hosts, and the messages between the hosts, interleaved
 in every way.
 */
module GatherVRun {
  import opened Layout
  import opened Network
  import opened Phases
  import opened GatherOrder
  import opened Stripes
  import opened Placement
  import opened CopyOut
  import opened StripedGather
  import opened StripeExchange
  import opened StripeRun
  import opened GatherV
  import GatherLoop
  import HostLoop
  import WholeRun

  /** On every host some process resets the flag; on the root's host, process `root` is the root. */
  datatype Roles = Roles(resetter: seq<nat>, root: nat)

  /** The buffers have room, and every host has a process. */
  ghost predicate Prepared<T>(job: Job<T>, roles: Roles, init: seq<Node<T>>) {
    && ValidJob(job) && |init| == |roles.resetter| == |job.procs| && HasRoom(init, |job.data| * job.size)
    && Separate(job.displs, Sizes(job.data), |init[job.root].own|) && roles.root < |job.procs[job.root]|
    && forall h :: 0 <= h < |job.procs| ==> roles.resetter[h] < |job.procs[h]|
  }

  type Node<T> = Host<seq<T>, seq<T>>

  type Whole<!T> = WholeRun.Collective<Segment, seq<T>, seq<T>, seq<T>, seq<T>>

  /** Of what the processes read only the root's counts. */
  ghost function ReadOne<T>(job: Job<T>, roles: Roles, h: nat, k: nat, p: nat, shared: seq<T>, buf: seq<T>): seq<T>
    requires ValidJob(job)
  {
    if h == job.root && p == roles.root then
      CopiedOut(buf, shared, StripeOffsets(job.displs, k, job.size), PieceLens(Sizes(job.data), k, job.size),
                ReadOrder(job))
    else buf
  }

  ghost function Parts<T>(job: Job<T>, roles: Roles, init: seq<Node<T>>, stripes: nat): Whole<T>
    requires Prepared(job, roles, init)
  {
    WholeRun.Collective(
      GatherPlan(job, Orders(job.procs, stripes)), init,
      seq(|job.procs|, h requires 0 <= h < |job.procs| => |job.procs[h]|),
      seq(|job.procs|, h requires 0 <= h < |job.procs| => HostLoop.Gather(GatherLoop.Loop(stripes, roles.resetter[h]))),
      (h: nat, k: nat, p: nat, buf: seq<T>) => WriteOne(job.data, job.procs, job.size, h, k, p, buf),
      (h: nat, k: nat, p: nat, shared: seq<T>, buf: seq<T>) => ReadOne(job, roles, h, k, p, shared, buf),
      (h: nat, p: nat, own: seq<T>) => if h == job.root && p == roles.root then own else [])
  }

  lemma {:induction false} PartsFit<T>(job: Job<T>, roles: Roles, init: seq<Node<T>>, stripes: nat)
    requires Prepared(job, roles, init)
    ensures var w := Parts(job, roles, init, stripes);
      && WholeRun.Sized(w) && w.plan.n == |job.procs| && w.plan.len == |SendOrder(TreeOf(job))|
      && WholeRun.StripeCount(w) == stripes
      && |w.nproc| == |job.procs| && (forall h :: 0 <= h < |job.procs| ==> w.nproc[h] == |job.procs[h]|)
  {
    hide GatherPlan, IsPlacement, HasRoom, AllConsistent, WriteOne, ReadOne, SendOrder, Separate;
    GatherPlanPairs(job, Orders(job.procs, stripes));
    var w := Parts(job, roles, init, stripes);
    forall h | 0 <= h < |job.procs|
      ensures w.nproc[h] > 0 && HostLoop.ValidLoop(w.loops[h], w.nproc[h])
      ensures HostLoop.StripesOf(w.loops[h]) == stripes
    {
      assert roles.resetter[h] < |job.procs[h]|;
    }
  }

  /** The collective, with all its processes. */
  ghost function TheWhole<T>(job: Job<T>, roles: Roles, init: seq<Node<T>>, stripes: nat): (w: Whole<T>)
    requires Prepared(job, roles, init)
    ensures WholeRun.Sized(w) && w.plan.n == |job.procs| && w.plan.len == |SendOrder(TreeOf(job))|
    ensures WholeRun.StripeCount(w) == stripes
    ensures |w.nproc| == |job.procs| && forall h :: 0 <= h < |job.procs| ==> w.nproc[h] == |job.procs[h]|
  {
    PartsFit(job, roles, init, stripes);
    Parts(job, roles, init, stripes)
  }

  lemma {:induction false} Writers<T>(job: Job<T>, roles: Roles, init: seq<Node<T>>, stripes: nat, h: nat, k: nat)
    requires Prepared(job, roles, init)
    ensures forall p, b {:trigger TheWhole(job, roles, init, stripes).write(h, k, p, b)} ::
      TheWhole(job, roles, init, stripes).write(h, k, p, b) == WriteOne(job.data, job.procs, job.size, h, k, p, b)
  {
    hide GatherPlan, WriteOne, WholeRun.Sized, HasRoom, IsPlacement, SendOrder, Separate;
  }

  lemma {:induction false} PlanOfWhole<T>(job: Job<T>, roles: Roles, init: seq<Node<T>>, stripes: nat)
    requires Prepared(job, roles, init)
    ensures WholeRun.Planned(TheWhole(job, roles, init, stripes)) ==
      PhaseNet(GatherPlan(job, Orders(job.procs, stripes)))
  {
    hide GatherPlan, WholeRun.Sized, HasRoom, IsPlacement, SendOrder, Separate;
  }

  /** The round-by-round run of the plan. */
  lemma {:induction false} TheStripes<T>(job: Job<T>, roles: Roles, init: seq<Node<T>>, stripes: nat)
    returns (t: seq<seq<Node<T>>>)
    requires Prepared(job, roles, init)
    ensures StripedRun(job, Orders(job.procs, stripes), init, t)
    ensures Accepting(WholeRun.Planned(TheWhole(job, roles, init, stripes)), init)
    ensures Ready(job, init, init[job.root].own, 0)
    ensures t == Trace(WholeRun.Planned(TheWhole(job, roles, init, stripes)), init)
  {
    hide GatherPlan, IsPlacement, HasRoom, AllConsistent, StripedRun, Ready, TheWhole, WholeRun.Planned, AllWrite,
      Trace, Consistent, SendOrder, Separate, WholeRun.Sized;
    var writes := Orders(job.procs, stripes);
    AllInOrder(job.procs);
    PlanOfWhole(job, roles, init, stripes);
    t := RunIsStriped(job, writes, init);
    StripedRunGathers(job, writes, init, t);
    ReadyAtStart(job, init);
  }

  lemma {:induction false} AtRound<T>(job: Job<T>, roles: Roles, init: seq<Node<T>>, stripes: nat,
                                      t: seq<seq<Node<T>>>, r: nat)
    requires Prepared(job, roles, init) && r < |t|
    requires t == Trace(WholeRun.Planned(TheWhole(job, roles, init, stripes)), init)
    ensures WholeRun.ByRounds(TheWhole(job, roles, init, stripes), r) == t[r]
  {
    hide WholeRun.Sized, WholeRun.Planned, GatherPlan, Sync, Prepared, SendOrder;
  }

  /** In the plan, all processes of host h write stripe k. */
  lemma {:induction false} HostWrites<T>(job: Job<T>, roles: Roles, init: seq<Node<T>>, stripes: nat,
                                         t: seq<seq<Node<T>>>, h: nat, k: nat)
    requires Prepared(job, roles, init) && Ready(job, init, init[job.root].own, 0)
    requires StripedRun(job, Orders(job.procs, stripes), init, t) && h < |job.procs| && k < stripes
    ensures AllWrite(job.procs, InOrder(job.procs))
    ensures var b := Base(k, |SendOrder(TreeOf(job))|);
      && b + 1 < |t| && |t[b]| == |t[b + 1]| == |job.procs| && |t[b][h].shared| >= |job.data| * job.size
      && t[b + 1][h].shared ==
         WriteAll(job.data, job.procs, InOrder(job.procs), h, k, job.size, t[b][h].shared)
  {
    hide GatherPlan, IsPlacement, AllWrite, RunOf, AllConsistent, WriteAll, Filled, OwnStep, SendOrder, Separate,
      AllInside;
    var writes := Orders(job.procs, stripes);
    AllStripes(job, writes, init, t, init[job.root].own, k);
    AllStripes(job, writes, init, t, init[job.root].own, k + 1);
    AfterWriters(job, writes, init, t, k, h);
  }

  /** In whatever order they do, it is the same. */
  lemma {:induction false} WritersOfStripe<T>(job: Job<T>, roles: Roles, init: seq<Node<T>>, stripes: nat,
                                              t: seq<seq<Node<T>>>, h: nat, k: nat)
    requires Prepared(job, roles, init) && Ready(job, init, init[job.root].own, 0)
    requires StripedRun(job, Orders(job.procs, stripes), init, t) && h < |job.procs| && k < stripes
    requires t == Trace(WholeRun.Planned(TheWhole(job, roles, init, stripes)), init)
    ensures WholeRun.WritesFit(TheWhole(job, roles, init, stripes), h, k)
  {
    hide IsPlacement, StripedRun, WholeRun.Planned, AllWrite, WholeRun.ByRounds, Trace, WholeRun.Sized, WriteAll,
      WholeRun.Written, IsPermutation, WriteOne, SendOrder, Separate, Ready, HasRoom, Base;
    var w, b := TheWhole(job, roles, init, stripes), Base(k, |SendOrder(TreeOf(job))|);
    HostWrites(job, roles, init, stripes, t, h, k);
    AtRound(job, roles, init, stripes, t, b);
    AtRound(job, roles, init, stripes, t, b + 1);
    Writers(job, roles, init, stripes, h, k);
    forall order | HostLoop.Complete(w.loops[h], w.nproc[h], order)
      ensures t[b + 1][h].shared == WholeRun.Written(w, h, k, order, t[b][h].shared)
    {
      AnyOrderWrites(w, job.data, job.procs, job.size, h, k, order, t[b][h].shared);
    }
  }

  /** And the root copies it out. */
  lemma {:induction false} RootReads<T>(job: Job<T>, roles: Roles, init: seq<Node<T>>, writes: seq<seq<seq<nat>>>,
                                        t: seq<seq<Node<T>>>, h: nat, k: nat)
    requires Prepared(job, roles, init) && Ready(job, init, init[job.root].own, 0)
    requires StripedRun(job, writes, init, t) && h < |job.procs| && k < |writes|
    ensures Base(k + 1, |SendOrder(TreeOf(job))|) < |t|
    ensures var len := |SendOrder(TreeOf(job))|;
      var b, next := Base(k, len), t[Base(k, len) + len + 2][h];
      && next.shared == t[b + len + 1][h].shared
      && (h == job.root ==> next.own == ReadOne(job, roles, h, k, roles.root, next.shared, t[b][h].own))
  {
    hide GatherPlan, IsPlacement, StripedRun, AllWrite, WriteAll, SendOrder, Separate, Ready, HasRoom, CopiedOut,
      PieceLens, StripeOffsets, ReadOrder;
    AllStripes(job, writes, init, t, init[job.root].own, k + 1);
    AfterWriters(job, writes, init, t, k, h);
    Middle(job, writes, init, t, k, h);
  }

  lemma {:induction false} ReadersOfStripe<T>(job: Job<T>, roles: Roles, init: seq<Node<T>>, stripes: nat,
                                              t: seq<seq<Node<T>>>, h: nat, k: nat)
    requires Prepared(job, roles, init) && Ready(job, init, init[job.root].own, 0)
    requires StripedRun(job, Orders(job.procs, stripes), init, t) && h < |job.procs| && k < stripes
    requires t == Trace(WholeRun.Planned(TheWhole(job, roles, init, stripes)), init)
    ensures WholeRun.ReadsFit(TheWhole(job, roles, init, stripes), h, k)
  {
    hide IsPlacement, StripedRun, WholeRun.Planned, WholeRun.ByRounds, Trace, WholeRun.Sized, SendOrder, Separate,
      Ready, HasRoom, ReadOne, TheWhole;
    var w, len := TheWhole(job, roles, init, stripes), |SendOrder(TreeOf(job))|;
    var b := Base(k, len);
    RootReads(job, roles, init, Orders(job.procs, stripes), t, h, k);
    AtRound(job, roles, init, stripes, t, b);
    AtRound(job, roles, init, stripes, t, b + len + 1);
    AtRound(job, roles, init, stripes, t, b + len + 2);
    forall p | 0 <= p < w.nproc[h]
      ensures w.view(h, p, t[b + len + 2][h].own) ==
        w.read(h, k, p, t[b + len + 2][h].shared, w.view(h, p, t[b][h].own))
    {
      ViewAndRead(job, roles, init, stripes, h, k, p, t[b + len + 2][h].shared, t[b][h].own);
      ViewAndRead(job, roles, init, stripes, h, k, p, t[b + len + 2][h].shared, t[b + len + 2][h].own);
    }
  }

  lemma {:induction false} ViewAndRead<T>(job: Job<T>, roles: Roles, init: seq<Node<T>>, stripes: nat, h: nat, k: nat,
                                          p: nat, shared: seq<T>, own: seq<T>)
    requires Prepared(job, roles, init)
    ensures var w := TheWhole(job, roles, init, stripes);
      if h == job.root && p == roles.root
      then w.view(h, p, own) == own && w.read(h, k, p, shared, own) == ReadOne(job, roles, h, k, p, shared, own)
      else w.view(h, p, own) == [] && w.read(h, k, p, shared, []) == []
  {
    hide GatherPlan, WholeRun.Sized, HasRoom, IsPlacement, SendOrder, Separate, CopiedOut;
  }

  /** The receive buffer stays as it is while a stripe is exchanged. */
  lemma {:induction false} Middle<T>(job: Job<T>, writes: seq<seq<seq<nat>>>, init: seq<Node<T>>, t: seq<seq<Node<T>>>,
                                     k: nat, h: nat)
    requires ValidJob(job) && StripedRun(job, writes, init, t) && k < |writes| && h < |job.procs|
    requires Base(k + 1, |SendOrder(TreeOf(job))|) < |t|
    ensures var b, len := Base(k, |SendOrder(TreeOf(job))|), |SendOrder(TreeOf(job))|;
      t[b + len + 1][h].own == t[b + 1][h].own
  {
    hide GatherPlan, RunOf, IsPlan, AllConsistent, AllWrite, SendOrder;
    OwnStays(GatherPlan(job, writes), init, t, k, |SendOrder(TreeOf(job))|, h);
  }

  /** The processes one by one do what the plan does. */
  lemma {:induction false} WholeIsValid<T>(job: Job<T>, roles: Roles, init: seq<Node<T>>, stripes: nat)
    returns (t: seq<seq<Node<T>>>)
    requires Prepared(job, roles, init)
    ensures WholeRun.Valid(TheWhole(job, roles, init, stripes)) && Ready(job, init, init[job.root].own, 0)
    ensures StripedRun(job, Orders(job.procs, stripes), init, t)
    ensures t == Trace(WholeRun.Planned(TheWhole(job, roles, init, stripes)), init)
  {
    hide GatherPlan, IsPlacement, StripedRun, WholeRun.Planned, Trace, Separate, WholeRun.Sized, Ready, Accepting,
      WholeRun.WritesFit, WholeRun.ReadsFit, HasRoom, SendOrder;
    var w := TheWhole(job, roles, init, stripes);
    t := TheStripes(job, roles, init, stripes);
    forall h, k | 0 <= h < |job.procs| && 0 <= k < stripes
      ensures WholeRun.StripeFits(w, h, k)
    {
      WritersOfStripe(job, roles, init, stripes, t, h, k);
      ReadersOfStripe(job, roles, init, stripes, t, h, k);
    }
  }

  // ---------------------------------------------------------------- the collective

  /**
   In every run of all processes of all hosts, with every interleaving of their writes, flags,
   barriers, messages and reads, when the root is done it has every rank's bytes at its
   displacement, and its receive buffer is otherwise as it was; until all are done somebody can go
   on, even with synchronous sends.
   */
  lemma {:induction false} AllProcessesGather<T>(job: Job<T>, roles: Roles, init: seq<Node<T>>, stripes: nat,
                                                 s: WholeRun.State<seq<T>, seq<T>, seq<T>, seq<T>>,
                                                 sched: seq<(nat, nat)>)
    requires Prepared(job, roles, init) && InRange(Flat(job.procs, Ascending(|job.procs|)), |job.data|)
    requires IsStripeCount(Sizes(job.data), Flat(job.procs, Ascending(|job.procs|)), stripes, job.size)
    requires WholeRun.Initial(TheWhole(job, roles, init, stripes), s)
    ensures var w := TheWhole(job, roles, init, stripes);
      var s' := WholeRun.Run(w, s, sched);
      WholeRun.Finished(w, s', job.root, roles.root) ==>
        |s'.mem[job.root][roles.root]| == |init[job.root].own| &&
        Gathered(s'.mem[job.root][roles.root], init[job.root].own, job.data, job.displs)
    ensures var w := TheWhole(job, roles, init, stripes);
      var s' := WholeRun.Run(w, s, sched);
      || (forall h, i :: 0 <= h < |job.procs| && 0 <= i < |job.procs[h]| ==> WholeRun.Finished(w, s', h, i))
      || exists h, i :: WholeRun.Enabled(w, s', h, i, true)
  {
    hide GatherPlan, IsPlacement, WholeRun.Sized, WholeRun.Valid, WholeRun.Run, Gathered, Flat, HasRoom, SendOrder,
      IsStripeCount, StripedRun, Trace, Ready, WholeRun.Planned, WholeRun.Enabled, WholeRun.Finished, Separate;
    var w := TheWhole(job, roles, init, stripes);
    var t := WholeIsValid(job, roles, init, stripes);
    if WholeRun.Finished(w, WholeRun.Run(w, s, sched), job.root, roles.root) {
      WholeRun.WholeRunAgrees(w, s, sched, job.root, roles.root);
      RootHasBytes(job, roles, init, stripes, t);
    }
    WholeRun.WholeRunNeverStuck(w, s, sched);
  }

  lemma {:induction false} RootHasBytes<T>(job: Job<T>, roles: Roles, init: seq<Node<T>>, stripes: nat,
                                           t: seq<seq<Node<T>>>)
    requires Prepared(job, roles, init) && InRange(Flat(job.procs, Ascending(|job.procs|)), |job.data|)
    requires IsStripeCount(Sizes(job.data), Flat(job.procs, Ascending(|job.procs|)), stripes, job.size)
    requires StripedRun(job, Orders(job.procs, stripes), init, t) && Ready(job, init, init[job.root].own, 0)
    requires t == Trace(WholeRun.Planned(TheWhole(job, roles, init, stripes)), init)
    ensures var w, len := TheWhole(job, roles, init, stripes), |SendOrder(TreeOf(job))|;
      var own := w.view(job.root, roles.root, WholeRun.ByRounds(w, Base(stripes, len))[job.root].own);
      |own| == |init[job.root].own| && Gathered(own, init[job.root].own, job.data, job.displs)
  {
    hide GatherPlan, IsPlacement, WholeRun.Sized, Flat, IsStripeCount, StripedRun, Trace, WholeRun.Planned, HasRoom,
      Gathered, WholeRun.ByRounds, Separate, Filled, SendOrder, AllInside;
    var len, before := |SendOrder(TreeOf(job))|, init[job.root].own;
    AllStripes(job, Orders(job.procs, stripes), init, t, before, stripes);
    AtRound(job, roles, init, stripes, t, Base(stripes, len));
    AscendingIsPermutation(|job.procs|);
    RanksInOrder(job.procs, Ascending(|job.procs|), |job.data|);
    FilledAtEnd(t[Base(stripes, len)][job.root].own, before, job.data, job.displs,
                Flat(job.procs, Ascending(|job.procs|)), stripes, job.size);
  }
}
