/**
 When does `ulm_scatter` work?  MPI lets only the root's send count matter, but every process of
 the source goes by its own, and every host by that of its local rank 0.
 */
module ScatterCounts {
  import opened Arith
  import opened Layout
  import opened Network
  import opened Buffers
  import opened Posted
  import opened Phases
  import opened Stripes
  import opened Placement
  import opened Scatter
  import opened ScatterStripes

  // ---------------------------------------------------------------- a run in which all bytes sent are the same

  ghost predicate Uniform<T>(s: seq<T>, x: T) { forall i :: 0 <= i < |s| ==> s[i] == x }

  ghost function Paint<T>(len: nat, x: T, y: T, upto: nat): (s: seq<T>)
    ensures |s| == len && forall i :: 0 <= i < len ==> s[i] == if i < upto then x else y
  {
    seq(len, i requires 0 <= i => if i < upto then x else y)
  }

  lemma {:induction false} WriteUniform<T>(buf: seq<T>, off: nat, m: seq<T>, x: T)
    requires Uniform(buf, x) && Uniform(m, x)
    ensures Uniform(Write(buf, off, m), x)
  {
  }

  lemma {:induction false} FlatUniform<T>(data: seq<seq<T>>, order: seq<nat>, x: T)
    requires InRange(order, |data|) && forall r :: 0 <= r < |data| ==> Uniform(data[r], x)
    ensures Uniform(Flat(data, order), x)
    decreases |order|
  {
    if order != [] {
      FlatUniform(data, order[..|order| - 1], x);
    }
  }

  lemma {:induction false} PackedUniform<T>(job: Job, sendbuf: seq<T>, k: nat, x: T)
    requires ValidJob(job) && Uniform(sendbuf, x)
    ensures Uniform(Packed(job, sendbuf, k), x)
  {
    hide IsPlacement, PackOrder, Sent, PieceLen;
    FlatUniform(SlotsAt(job, sendbuf, k), PackOrder(job), x);
  }

  ghost predicate AllUniform<T>(bufs: seq<seq<T>>, x: T) { forall h :: 0 <= h < |bufs| ==> Uniform(bufs[h], x) }

  ghost predicate SameLengths<T>(a: seq<seq<T>>, b: seq<seq<T>>) {
    |a| == |b| && forall h :: 0 <= h < |a| ==> |a[h]| == |b[h]|
  }

  /** Messages move only what is there. */
  lemma {:induction false} MessagesUniform<T>(scripts: seq<seq<Round<Segment>>>, u: seq<seq<seq<T>>>, j: nat, x: T)
    requires Consistent(ShortNet<T>(scripts)) && u != [] && |u[0]| == |scripts|
    requires IsTrace(ShortNet<T>(scripts), u[0], u) && j < |u| && AllUniform(u[0], x)
    ensures AllUniform(u[j], x) && SameLengths(u[j], u[0])
    decreases j
  {
    hide Consistent, Write, Uniform;
    if j > 0 {
      MessagesUniform(scripts, u, j - 1, x);
      forall h | 0 <= h < |u[j]|
        ensures Uniform(u[j][h], x) && |u[j][h]| == |u[0][h]|
      {
        MessageUniform(scripts, u, j - 1, h, x);
      }
    }
  }

  lemma {:induction false} MessageUniform<T>(scripts: seq<seq<Round<Segment>>>, u: seq<seq<seq<T>>>, j: nat, h: nat,
                                             x: T)
    requires Consistent(ShortNet<T>(scripts)) && u != [] && |u[0]| == |scripts|
    requires IsTrace(ShortNet<T>(scripts), u[0], u) && j + 1 < |u| && AllUniform(u[j], x) && h < |scripts|
    ensures |u[j]| == |u[j + 1]| == |scripts| && Uniform(u[j + 1][h], x) && |u[j + 1][h]| == |u[j][h]|
  {
    hide Consistent, Write, RoundAt;
    var net := ShortNet<T>(scripts);
    TraceNext(net, u[0], u, j, h);
    if InAt(net, h, j).Some? {
      var q := InAt(net, h, j).value.peer;
      assert Uniform(u[j][q], x) && Uniform(u[j][h], x);
      var m := Read(u[j][q], OutAt(net, q, j).value.how);
      WriteUniform(u[j][h], InAt(net, h, j).value.how.off, m, x);
    }
  }

  // ---------------------------------------------------------------- what the processes have after k stripes

  ghost function CountAt(job: Job, h: nat, i: nat): nat
    requires ValidJob(job) && h < |job.procs| && i < |job.procs[h]|
  {
    PlacedRanks(job.procs, |job.counts|, h);
    job.counts[job.procs[h][i]]
  }

  /** Memory with room for what the process expects and for what it takes. */
  ghost function Painted<T>(job: Job, h: nat, i: nat, k: nat, x: T, y: T): seq<T>
    requires ValidJob(job) && h < |job.procs| && i < |job.procs[h]|
  {
    Paint(CountAt(job, h, i) + job.recvBytes, x, y, Sent(CountAt(job, h, i), k, job.size))
  }

  ghost predicate HostPainted<T>(job: Job, st: Node<T>, h: nat, k: nat, x: T, y: T)
    requires ValidJob(job) && h < |job.procs|
  {
    && Uniform(st.shared, x) && |st.shared| >= |job.counts| * job.size && |st.own| == |job.procs[h]|
    && forall i :: 0 <= i < |job.procs[h]| ==> st.own[i] == Painted(job, h, i, k, x, y)
  }

  ghost predicate AllPainted<T>(job: Job, hosts: seq<Node<T>>, k: nat, x: T, y: T)
    requires ValidJob(job)
  {
    |hosts| == |job.procs| && forall h :: 0 <= h < |hosts| ==> HostPainted(job, hosts[h], h, k, x, y)
  }

  lemma {:induction false} LocalRanks(job: Job, h: nat)
    requires ValidJob(job) && h < |job.procs|
    ensures |job.procs[h]| <= |job.counts|
  {
    hide Bytes;
    var n, ranks := |job.counts|, job.procs[h];
    var ones := seq(n, r => 1);
    BytesOfSome(ones, ranks, n);
    EqualBytes(ones, ranks, 1);
    EqualBytes(ones, Ascending(n), 1);
  }

  lemma {:induction false} SliceInRange(i: nat, n: nat, now: nat, size: nat)
    requires i < n && now <= size
    ensures SliceOf(i, now).off + SliceOf(i, now).len <= n * size && SliceOf(i, now).len == now
  {
    MultiplesApart(i, n, now);
    Scaled(now, size, n);
  }

  lemma {:induction false} UniformSlice<T>(buf: seq<T>, seg: Segment, x: T)
    requires Uniform(buf, x) && seg.off + seg.len <= |buf|
    ensures Uniform(Read(buf, seg), x) && |Read(buf, seg)| == seg.len
  {
  }

  lemma {:induction false} WritePaint<T>(len: nat, x: T, y: T, upto: nat, m: seq<T>)
    requires Uniform(m, x) && upto + |m| <= len
    ensures Write(Paint(len, x, y, upto), upto, m) == Paint(len, x, y, upto + |m|)
  {
  }

  /** A stripe paints as much as the process's count tells it to take. */
  lemma {:induction false} ProcPaints<T>(job: Job, h: nat, i: nat, k: nat, shared: seq<T>, x: T, y: T)
    requires ValidJob(job) && h < |job.procs| && i < |job.procs[h]|
    requires Uniform(shared, x) && |shared| >= |job.counts| * job.size
    ensures Sliced(Painted(job, h, i, k, x, y), shared, i, CountAt(job, h, i), k, job.size) ==
      Painted(job, h, i, k + 1, x, y)
  {
    hide IsPlacement, Sent, PieceLen, Paint, Write, Read, SliceOf, Uniform;
    var c := CountAt(job, h, i);
    var now := PieceLen(c, k, job.size);
    LocalRanks(job, h);
    ShareInside(c, k, job.size);
    SliceInRange(i, |job.counts|, now, job.size);
    UniformSlice(shared, SliceOf(i, now), x);
    NextSent(c, k, job.size);
    WritePaint(c + job.recvBytes, x, y, Sent(c, k, job.size), Read(shared, SliceOf(i, now)));
  }

  /** The shared buffers of stripe k hold nothing but x. */
  lemma {:induction false} StripeUniform<T>(job: Job, sendbuf: seq<T>, init: seq<Node<T>>, t: seq<seq<Node<T>>>, k: nat,
                                            x: T, y: T)
    requires ValidJob(job) && StripedRun(job, sendbuf, init, t) && k < NumStripes(job) && Base(k + 1, Len(job)) < |t|
    requires Uniform(sendbuf, x) && AllPainted(job, t[Base(k, Len(job))], k, x, y)
    ensures AllUniform(StripeAt(job, sendbuf, t, k)[0], x)
    ensures forall h :: 0 <= h < |job.procs| ==>
      |StripeAt(job, sendbuf, t, k)[0][h]| == |t[Base(k, Len(job))][h].shared|
  {
    hide RunOf, AllConsistent, ScatterPlan, IsPlacement, NumStripes, Packed, Slice, Uniform, Write, Painted;
    var b, u0 := Base(k, Len(job)), StripeAt(job, sendbuf, t, k)[0];
    forall h | 0 <= h < |job.procs|
      ensures Uniform(u0[h], x) && |u0[h]| == |t[b][h].shared|
    {
      assert HostPainted(job, t[b][h], h, k, x, y);
      OwnStepsOf(job, sendbuf, init, t, k, h);
      PackedUniform(job, sendbuf, k, x);
      WriteUniform(t[b][h].shared, 0, Packed(job, sendbuf, k), x);
    }
  }

  lemma {:induction false} StripeTaken<T>(job: Job, sendbuf: seq<T>, init: seq<Node<T>>, t: seq<seq<Node<T>>>, k: nat,
                                          h: nat, x: T, y: T)
    requires ValidJob(job) && StripedRun(job, sendbuf, init, t) && k < NumStripes(job) && Base(k + 1, Len(job)) < |t|
    requires Uniform(sendbuf, x) && AllPainted(job, t[Base(k, Len(job))], k, x, y) && h < |job.procs|
    ensures var after := StripeAt(job, sendbuf, t, k)[Len(job)][h];
      Uniform(after, x) && |after| == |t[Base(k, Len(job))][h].shared|
  {
    hide RunOf, AllConsistent, ScatterPlan, IsPlacement, NumStripes, Uniform, Consistent, IsTrace, StripeScripts, Slice,
      AllPainted;
    StripeUniform(job, sendbuf, init, t, k, x, y);
    SliceIsTrace(ScatterPlan(job, sendbuf), init, t, k);
    StripeNet(job, sendbuf, k);
    MessagesUniform(StripeScripts(job, k), StripeAt(job, sendbuf, t, k), Len(job), x);
  }

  lemma {:induction false} StripeNet<T>(job: Job, sendbuf: seq<T>, k: nat)
    requires ValidJob(job) && k < NumStripes(job)
    ensures PhaseOf(ScatterPlan(job, sendbuf), k) == ShortNet<T>(StripeScripts(job, k))
  {
    hide IsPlacement, StripeScripts, NumStripes;
  }

  lemma {:induction false} StripePaints<T>(job: Job, sendbuf: seq<T>, init: seq<Node<T>>, t: seq<seq<Node<T>>>, k: nat,
                                           h: nat, x: T, y: T)
    requires ValidJob(job) && StripedRun(job, sendbuf, init, t) && k < NumStripes(job) && Base(k + 1, Len(job)) < |t|
    requires Uniform(sendbuf, x) && AllPainted(job, t[Base(k, Len(job))], k, x, y) && h < |job.procs|
    ensures HostPainted(job, t[Base(k + 1, Len(job))][h], h, k + 1, x, y)
  {
    hide RunOf, AllConsistent, ScatterPlan, IsPlacement, NumStripes, Packed, Uniform, Painted, Slice, Sliced;
    var b, len := Base(k, Len(job)), Len(job);
    StripeTaken(job, sendbuf, init, t, k, h, x, y);
    OwnStepsOf(job, sendbuf, init, t, k, h);
    OwnStays(ScatterPlan(job, sendbuf), init, t, k, len, h);
    assert HostPainted(job, t[b][h], h, k, x, y);
    var st := t[b + 1 + len][h];
    assert st.shared == StripeAt(job, sendbuf, t, k)[len][h];
    var next := t[b + len + 2][h];
    forall i | 0 <= i < |job.procs[h]|
      ensures next.own[i] == Painted(job, h, i, k + 1, x, y)
    {
      ProcPaints(job, h, i, k, st.shared, x, y);
    }
  }

  lemma {:induction false} AllPaint<T>(job: Job, sendbuf: seq<T>, init: seq<Node<T>>, t: seq<seq<Node<T>>>, k: nat,
                                       x: T, y: T)
    requires ValidJob(job) && StripedRun(job, sendbuf, init, t) && k <= NumStripes(job)
    requires Uniform(sendbuf, x) && AllPainted(job, init, 0, x, y)
    ensures Base(k, Len(job)) < |t| && AllPainted(job, t[Base(k, Len(job))], k, x, y)
    decreases k
  {
    hide AllConsistent, ScatterPlan, IsPlacement, NumStripes, Uniform, HostPainted;
    BaseMonotone(k, NumStripes(job), Len(job));
    if k > 0 {
      AllPaint(job, sendbuf, init, t, k - 1, x, y);
      forall h | 0 <= h < |job.procs|
        ensures HostPainted(job, t[Base(k, Len(job))][h], h, k, x, y)
      {
        StripePaints(job, sendbuf, init, t, k - 1, h, x, y);
      }
    } else {
      TraceStart(PhaseNet(ScatterPlan(job, sendbuf)), init, t);
    }
  }

  // ---------------------------------------------------------------- exactly when scatter works

  /** Whatever the data, the memories and the schedule, every process gets exactly the bytes for it. */
  ghost predicate Works<T(!new)>(job: Job)
    requires ValidJob(job)
  {
    forall sendbuf: seq<T>, init: seq<Node<T>>, posted: seq<nat> {:trigger Delivers(job, sendbuf, init, posted)} ::
      Fits(job, sendbuf, init) ==> Delivers(job, sendbuf, init, posted)
  }

  /** Everything that is sent or already shared is x, all the memory is y. */
  ghost function PaintedStart<T>(job: Job, x: T, y: T): (init: seq<Node<T>>)
    requires ValidJob(job)
    ensures AllPainted(job, init, 0, x, y)
  {
    var n, room := |job.procs|, |job.counts| * job.size;
    seq(n, h requires 0 <= h < n =>
      Host(Paint(room, x, y, room),
           seq(|job.procs[h]|, i requires 0 <= i < |job.procs[h]| => Painted(job, h, i, 0, x, y))))
  }

  lemma {:induction false} PaintedFits<T>(job: Job, sendbuf: seq<T>, init: seq<Node<T>>, x: T, y: T)
    requires ValidJob(job) && |sendbuf| == |job.counts| * job.counts[job.root] && AllPainted(job, init, 0, x, y)
    ensures Fits(job, sendbuf, init)
  {
    hide IsPlacement, Sent, Uniform;
    forall h | 0 <= h < |job.procs|
      ensures |init[h].shared| >= |job.counts| * job.size && |init[h].own| == |job.procs[h]|
      ensures forall i :: 0 <= i < |job.procs[h]| ==> |init[h].own[i]| >= job.recvBytes
    {
      assert HostPainted(job, init[h], h, 0, x, y);
    }
  }

  /** If every schedule delivers, some schedule performs everything, and it ends like the round-by-round run. */
  lemma {:induction false} SomeRunEnds<T(!new)>(job: Job, sendbuf: seq<T>, init: seq<Node<T>>, h: nat, i: nat)
    returns (t: seq<seq<Node<T>>>)
    requires ValidJob(job) && Works<T>(job) && Fits(job, sendbuf, init) && h < |job.procs| && i < |job.procs[h]|
    ensures StripedRun(job, sendbuf, init, t) && Base(NumStripes(job), Len(job)) < |t|
    ensures HasOwn(job, sendbuf, t[Base(NumStripes(job), Len(job))][h], init, h, i)
  {
    hide AllConsistent, ScatterPlan, IsPlacement, Consistent, StripedRun, HasOwn, Addressed, AllPerformed, CanAct,
      Perform, NumStripes, Fits, Works;
    Hosts(job, sendbuf, init);
    t := RunIsStriped(job, sendbuf, init);
    var net := PhaseNet(ScatterPlan(job, sendbuf));
    var ops := PostedBy(net.scripts);
    OpsAddressed(net);
    NothingHeldUp(job, sendbuf, init);
    var posted := Finish(net, ops, init, []);
    PostedRunsEnd(net, init, posted);
    WorksFor(job, sendbuf, init, posted);
    assert HasOwn(job, sendbuf, Perform(net, ops, Start(net, init), posted).local[h], init, h, i);
  }

  lemma {:induction false} Hosts<T>(job: Job, sendbuf: seq<T>, init: seq<Node<T>>)
    requires ValidJob(job) && Fits(job, sendbuf, init)
    ensures |init| == |job.procs|
  {
  }

  lemma {:induction false} WorksFor<T(!new)>(job: Job, sendbuf: seq<T>, init: seq<Node<T>>, posted: seq<nat>)
    requires ValidJob(job) && Works<T>(job) && Fits(job, sendbuf, init)
    ensures Delivers(job, sendbuf, init, posted)
  {
  }

  lemma {:induction false} NothingHeldUp<T(!new)>(job: Job, sendbuf: seq<T>, init: seq<Node<T>>)
    requires ValidJob(job) && Works<T>(job) && Fits(job, sendbuf, init) && |init| == |job.procs|
    ensures var net := PhaseNet(ScatterPlan(job, sendbuf));
      Addressed(PostedBy(net.scripts)) && NeverHeldUp(net, PostedBy(net.scripts), init)
  {
    hide ScatterPlan, IsPlacement, HasOwn, Addressed, AllPerformed, CanAct, Perform, NumStripes, Fits, Works;
    WorksFor(job, sendbuf, init, []);
    var net := PhaseNet(ScatterPlan(job, sendbuf));
    var ops := PostedBy(net.scripts);
    forall posted: seq<nat>
      ensures var d := Perform(net, ops, Start(net, init), posted);
        AllPerformed(ops, d) || exists p :: CanAct(net, ops, d, p, true)
    {
      WorksFor(job, sendbuf, init, posted);
    }
  }

  lemma {:induction false} SamePaint<T>(len: nat, x: T, y: T, a: nat, b: nat)
    requires x != y && a <= len && b <= len
    ensures Paint(len, x, y, a) == Paint(len, x, y, b) ==> a == b
  {
    if a != b {
      var i := if a < b then a else b;
      assert Paint(len, x, y, a)[i] != Paint(len, x, y, b)[i];
    }
  }

  /** The i-th process of host h takes exactly what it expects. */
  lemma {:induction false} TakesAll<T(!new)>(job: Job, h: nat, i: nat, x: T, y: T)
    requires ValidJob(job) && Works<T>(job) && x != y && h < |job.procs| && i < |job.procs[h]|
    ensures RightCount(CountAt(job, h, i), job.recvBytes, job.size)
  {
    hide IsPlacement, StripedRun, Works, Fits, Sent, Paint, PaintedStart, Received, AllPainted;
    var total := |job.counts| * job.counts[job.root];
    var sendbuf, init := Paint(total, x, y, total), PaintedStart(job, x, y);
    PaintedFits(job, sendbuf, init, x, y);
    var t := SomeRunEnds(job, sendbuf, init, h, i);
    AllPaint(job, sendbuf, init, t, NumStripes(job), x, y);
    var c, last := CountAt(job, h, i), t[Base(NumStripes(job), Len(job))];
    PaintedParts(job, last, NumStripes(job), h, i, x, y);
    PaintedParts(job, init, 0, h, i, x, y);
    var taken := Sent(c, NumStripes(job), job.size);
    OwnIsPaint(job, sendbuf, last[h].own[i], h, i, job.procs[h][i] * job.counts[job.root], x, y);
    SentWithin(c, NumStripes(job), job.size);
    SamePaint(c + job.recvBytes, x, y, taken, job.recvBytes);
    CopiesAllIff(c, job.recvBytes, job.size);
  }

  lemma {:induction false} SentWithin(c: nat, k: nat, size: nat)
    ensures Sent(c, k, size) <= c
  {
  }

  lemma {:induction false} PaintedParts<T>(job: Job, hosts: seq<Node<T>>, k: nat, h: nat, i: nat, x: T, y: T)
    requires ValidJob(job) && AllPainted(job, hosts, k, x, y) && h < |job.procs| && i < |job.procs[h]|
    ensures |hosts| == |job.procs| && |hosts[h].own| == |job.procs[h]|
    ensures hosts[h].own[i] == Painted(job, h, i, k, x, y)
  {
    hide Painted, Uniform, IsPlacement;
    assert HostPainted(job, hosts[h], h, k, x, y);
  }

  /** What the process should have. */
  lemma {:induction false} OwnIsPaint<T>(job: Job, sendbuf: seq<T>, mem: seq<T>, h: nat, i: nat, from: nat, x: T, y: T)
    requires ValidJob(job) && h < |job.procs| && i < |job.procs[h]| && Uniform(sendbuf, x)
    requires Received(sendbuf, from, job.recvBytes, mem, Painted(job, h, i, 0, x, y))
    ensures mem == Paint(CountAt(job, h, i) + job.recvBytes, x, y, job.recvBytes)
  {
    hide IsPlacement, Sent;
    NextSent(CountAt(job, h, i), 0, job.size);
  }

  /**
   Every process gets exactly the bytes for it, whatever the data and the schedule, if and only
   if every process's send count says what it expects, or more while the expected bytes fill
   whole stripes.
   */
  lemma {:induction false} WorksIff<T(!new)>(job: Job, x: T, y: T)
    requires ValidJob(job) && x != y
    ensures Works<T>(job) <==> RightCounts(job)
  {
    hide IsPlacement, Delivers, Fits, RightCount;
    if RightCounts(job) {
      forall sendbuf: seq<T>, init: seq<Node<T>>, posted: seq<nat> | Fits(job, sendbuf, init)
        ensures Delivers(job, sendbuf, init, posted)
      {
        RightCountsDeliver(job, sendbuf, init, posted);
      }
    }
    if Works<T>(job) {
      forall r | 0 <= r < |job.counts|
        ensures RightCount(job.counts[r], job.recvBytes, job.size)
      {
        var h, i := WhereIs(job, r);
        TakesAll(job, h, i, x, y);
      }
    }
  }

  lemma {:induction false} WhereIs(job: Job, r: nat) returns (h: nat, i: nat)
    requires ValidJob(job) && r < |job.counts|
    ensures h < |job.procs| && i < |job.procs[h]| && job.procs[h][i] == r
  {
    assert Somewhere(job.procs, r);
    h :| 0 <= h < |job.procs| && r in job.procs[h];
    i :| 0 <= i < |job.procs[h]| && job.procs[h][i] == r;
  }

  /** A receiving process that passes a send count of 0, as MPI lets it, breaks the scatter. */
  lemma {:induction false} ZeroSendCount<T(!new)>(job: Job, r: nat, x: T, y: T)
    requires ValidJob(job) && x != y && r < |job.counts| && job.counts[r] == 0 && job.recvBytes > 0
    ensures !Works<T>(job)
  {
    hide Works;
    WorksIff(job, x, y);
    assert RightCounts(job) ==> RightCount(job.counts[r], job.recvBytes, job.size);
  }
}
