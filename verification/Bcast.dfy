/**
 `ulm_bcast` over all processes of a communicator: the representatives pass the root's data
 from host to host, all processes of a host meet, and the representative hands the data on
 through the shared buffer.  Every interleaving of all processes of all hosts: a host may be
 copying out its last chunk before another has received its first block.  Nobody leaves an on-host
 barrier before all processes of the host have come to it (`CounterBarrier`).
 */
module Bcast {
  import opened Arith
  import opened Layout
  import opened Network
  import opened Posted
  import opened Phases
  import opened Stripes
  import opened BcastBlocks
  import BcastLoop

  /** In the interhost step, in the barrier after it, in the loop over the chunks, back from the call. */
  datatype Leg = Sending | Waiting | Looping | Returned

  /** `loops[h]` is the chunk loop of host h; `trail` lists the hosts whose representatives acted on their messages. */
  datatype State<T> = State(legs: seq<seq<Leg>>, loops: seq<BcastLoop.State<seq<T>>>, trail: seq<nat>)

  type Traffic<T> = Config<Node<T>, Option<seq<T>>>

  // ---------------------------------------------------------------- the representatives' messages

  ghost function TheNet<T>(job: Job<T>): (net: Net<Deed<Segment>, Node<T>, Option<seq<T>>>)
    requires ValidJob(job)
    ensures Consistent(net) && |net.scripts| == |job.before| && Addressed(PostedBy(net.scripts))
  {
    BlockedRunDelivers(job);
    OpsAddressed(PhaseNet(BcastPlan(job)));
    PhaseNet(BcastPlan(job))
  }

  ghost function Ops<T>(job: Job<T>): (ops: seq<seq<Round<Deed<Segment>>>>)
    requires ValidJob(job)
    ensures |ops| == |job.before| && Addressed(ops)
  {
    PostedBy(TheNet(job).scripts)
  }

  ghost function Messages<T>(job: Job<T>, trail: seq<nat>): (c: Traffic<T>)
    requires ValidJob(job)
    ensures WellFormed(TheNet(job).(scripts := Ops(job)), c)
  {
    Perform(TheNet(job), Ops(job), Start(TheNet(job), Entering(job)), trail)
  }

  /** The representative of host h has performed all it posts. */
  ghost predicate Through<T>(job: Job<T>, trail: seq<nat>, h: nat)
    requires ValidJob(job) && h < |job.before|
  {
    Messages(job, trail).pc[h] == 3 * |Ops(job)[h]|
  }

  // ---------------------------------------------------------------- the chunks

  function NumChunks(bytes: nat, chunk: nat): nat
    requires chunk > 0
  {
    if bytes == 0 then 0 else Quotient(bytes - 1, chunk) + 1
  }

  /** What the representative packs from its user buffer, chunk after chunk. */
  ghost function Chunks<T>(job: Job<T>, buf: seq<T>): (chunks: seq<seq<T>>)
    requires ValidJob(job)
    ensures |chunks| == NumChunks(BcastSize(job), job.chunk)
    ensures forall c :: 0 <= c < |chunks| ==> chunks[c] == Piece(Read(buf, Segment(0, BcastSize(job))), c, job.chunk)
  {
    seq(NumChunks(BcastSize(job), job.chunk), c requires 0 <= c =>
      Piece(Read(buf, Segment(0, BcastSize(job))), c, job.chunk))
  }

  /** The loop on host h, with what its representative has in its buffer now. */
  ghost function LoopNow<T>(job: Job<T>, trail: seq<nat>, h: nat): BcastLoop.Job<seq<T>>
    requires ValidJob(job) && h < |job.before|
  {
    BcastLoop.Job(Chunks(job, Messages(job, trail).local[h].shared), Rep(job, h))
  }

  /** The loop on host h, with the root's data. */
  ghost function LoopOf<T>(job: Job<T>, h: nat): BcastLoop.Job<seq<T>>
    requires ValidJob(job)
  {
    BcastLoop.Job(Chunks(job, Data(job)), Rep(job, h))
  }

  // ---------------------------------------------------------------- the machine

  /** There are as many processes as hosts. */
  ghost predicate OneEach<T>(job: Job<T>) { forall h :: 0 <= h < |job.before| ==> |job.before[h]| == 1 }

  ghost predicate Shaped<T>(job: Job<T>, s: State<T>) {
    && |s.legs| == |s.loops| == |job.before|
    && forall h :: 0 <= h < |job.before| ==>
         |s.legs[h]| == |s.loops[h].procs| == |s.loops[h].out| == |job.before[h]|
  }

  ghost predicate AtEnd<T>(job: Job<T>, s: State<T>, h: nat, i: nat)
    requires ValidJob(job) && Shaped(job, s) && h < |job.before| && i < |job.before[h]|
  {
    s.loops[h].procs[i].chunk >= NumChunks(BcastSize(job), job.chunk)
  }

  /** Can process i of host h take a step?  With `rendezvous`, sends wait for receives. */
  ghost predicate Enabled<T>(job: Job<T>, s: State<T>, h: nat, i: nat, rendezvous: bool)
    requires ValidJob(job) && Shaped(job, s)
  {
    h < |job.before| && i < |job.before[h]| &&
    match s.legs[h][i]
    case Sending =>
      i != Rep(job, h) || Through(job, s.trail, h) ||
      CanAct(TheNet(job), Ops(job), Messages(job, s.trail), h, rendezvous)
    case Waiting => Quiet(s.legs[h])
    case Looping => AtEnd(job, s, h, i) || BcastLoop.Enabled(LoopNow(job, s.trail, h), s.loops[h], i)
    case Returned => false
  }

  ghost function Goes<T>(s: State<T>, h: nat, i: nat, leg: Leg): State<T>
    requires h < |s.legs| && i < |s.legs[h]|
  {
    var row: seq<Leg> := s.legs[h][i := leg];
    s.(legs := s.legs[h := row])
  }

  ghost function Step<T>(job: Job<T>, s: State<T>, h: nat, i: nat): (s': State<T>)
    requires ValidJob(job) && Shaped(job, s) && Enabled(job, s, h, i, false)
    ensures Shaped(job, s')
  {
    match s.legs[h][i]
    case Sending =>
      if i != Rep(job, h) || Through(job, s.trail, h) then Goes(s, h, i, if OneEach(job) then Returned else Waiting)
      else s.(trail := s.trail + [h])
    case Waiting => Goes(s, h, i, Looping)
    case Looping =>
      if AtEnd(job, s, h, i) then Goes(s, h, i, Returned)
      else s.(loops := s.loops[h := BcastLoop.Move(LoopNow(job, s.trail, h), s.loops[h], i)])
  }

  /** With one host there is nothing to send. */
  ghost predicate Initial<T>(job: Job<T>, s: State<T>) {
    && Shaped(job, s) && s.trail == []
    && (forall h :: 0 <= h < |job.before| ==> s.loops[h] == BcastLoop.Start(|job.before[h]|))
    && forall h, i {:trigger s.legs[h][i]} :: 0 <= h < |job.before| && 0 <= i < |job.before[h]| ==>
         s.legs[h][i] == if |job.before| == 1 then Looping else Sending
  }

  ghost function Run<T>(job: Job<T>, s: State<T>, sched: seq<(nat, nat)>): (s': State<T>)
    requires ValidJob(job) && Shaped(job, s)
    ensures Shaped(job, s')
    decreases |sched|
  {
    if sched == [] then s
    else
      var before := Run(job, s, sched[..|sched| - 1]);
      var (h, i) := sched[|sched| - 1];
      if Enabled(job, before, h, i, false) then Step(job, before, h, i) else before
  }

  /** The user buffer of process i of host h: the representative receives into it, the others unpack into it. */
  ghost function Memory<T>(job: Job<T>, s: State<T>, h: nat, i: nat): seq<T>
    requires ValidJob(job) && Shaped(job, s) && h < |job.before| && i < |job.before[h]|
  {
    if i == Rep(job, h) then Messages(job, s.trail).local[h].shared
    else Write(job.before[h][i], 0, Flat(s.loops[h].out[i], Ascending(|s.loops[h].out[i]|)))
  }

  // ---------------------------------------------------------------- what a representative has when it is through

  lemma {:induction false} ThroughHasData<T>(job: Job<T>, trail: seq<nat>, h: nat)
    requires ValidJob(job) && h < |job.before| && Through(job, trail, h)
    ensures Messages(job, trail).local[h].shared == Write(Mine(job, h), 0, Data(job))
    ensures LoopNow(job, trail, h) == LoopOf(job, h)
  {
    hide BcastPlan, Consistent, Addressed, Perform, Holds, Write, Data, BcastSize, Blocks, Trace, Chunks;
    BlockedRunDelivers(job);
    OneProcessEnds(TheNet(job), Entering(job), trail, h);
    AllInPlace(job, Trace(TheNet(job), Entering(job))[MaxLength(TheNet(job).scripts)], h);
    SameChunks(job, Mine(job, h));
  }

  lemma {:induction false} SameChunks<T>(job: Job<T>, buf: seq<T>)
    requires ValidJob(job) && |buf| >= BcastSize(job)
    ensures Chunks(job, Write(buf, 0, Data(job))) == Chunks(job, Data(job))
  {
    hide BcastSize, NumChunks;
    assert Read(Data(job), Segment(0, BcastSize(job))) == Data(job);
    assert Read(Write(buf, 0, Data(job)), Segment(0, BcastSize(job))) == Data(job);
  }

  // ---------------------------------------------------------------- the invariant

  /** All processes of a host are past the interhost step. */
  ghost predicate Quiet(legs: seq<Leg>) { forall j :: 0 <= j < |legs| ==> legs[j] != Sending }

  /** Nobody needs the loop: the hosts have one process each. */
  ghost predicate NoLoop<T>(job: Job<T>) { OneEach(job) && |job.before| > 1 }

  ghost predicate LegOk<T>(job: Job<T>, s: State<T>, h: nat, i: nat)
    requires ValidJob(job) && Shaped(job, s) && h < |job.before| && i < |job.before[h]|
  {
    var leg := s.legs[h][i];
    && (i == Rep(job, h) && leg != Sending ==> Through(job, s.trail, h))
    && (leg == Looping || leg == Returned ==> Quiet(s.legs[h]))
    && (|job.before| == 1 ==> leg != Sending)
    && (if NoLoop(job) then leg == Sending || leg == Returned else leg == Returned ==> AtEnd(job, s, h, i))
  }

  ghost predicate HostOk<T>(job: Job<T>, s: State<T>, h: nat)
    requires ValidJob(job) && Shaped(job, s) && h < |job.before|
  {
    && BcastLoop.Inv(LoopOf(job, h), s.loops[h])
    && forall i :: 0 <= i < |job.before[h]| ==> LegOk(job, s, h, i)
  }

  ghost predicate Inv<T>(job: Job<T>, s: State<T>)
    requires ValidJob(job)
  {
    Shaped(job, s) && forall h :: 0 <= h < |job.before| ==> HostOk(job, s, h)
  }

  /** A host that has anybody in the loop has a representative with the root's data. */
  lemma {:induction false} LoopHasData<T>(job: Job<T>, s: State<T>, h: nat, i: nat)
    requires ValidJob(job) && Shaped(job, s) && h < |job.before| && i < |job.before[h]| && HostOk(job, s, h)
    requires s.legs[h][i] == Looping || s.legs[h][i] == Returned
    ensures Through(job, s.trail, h) && LoopNow(job, s.trail, h) == LoopOf(job, h)
  {
    hide Through, LoopNow, LoopOf, BcastLoop.Inv, BcastSize, AtEnd;
    assert LegOk(job, s, h, i) && LegOk(job, s, h, Rep(job, h));
    ThroughHasData(job, s.trail, h);
  }

  /** The step of a process changes its own leg, its place in the loop, or its host's messages. */
  lemma {:induction false} StepIs<T>(job: Job<T>, s: State<T>, h: nat, i: nat)
    requires ValidJob(job) && Shaped(job, s) && Enabled(job, s, h, i, false) && HostOk(job, s, h)
    ensures var s' := Step(job, s, h, i);
      && (forall g :: 0 <= g < |job.before| && g != h ==> s'.legs[g] == s.legs[g] && s'.loops[g] == s.loops[g])
      && (forall j :: 0 <= j < |job.before[h]| && j != i ==>
            s'.legs[h][j] == s.legs[h][j] && s'.loops[h].procs[j] == s.loops[h].procs[j])
      && (s'.trail == s.trail || (s'.trail == s.trail + [h] && s'.legs == s.legs && s.legs[h][Rep(job, h)] == Sending))
      && (Quiet(s.legs[h]) ==> Quiet(s'.legs[h]))
      && BcastLoop.Inv(LoopOf(job, h), s'.loops[h])
  {
    hide Through, LoopNow, LoopOf, BcastLoop.Inv, BcastLoop.Enabled, BcastSize, LegOk, Messages;
    if s.legs[h][i] == Looping && !AtEnd(job, s, h, i) {
      LoopHasData(job, s, h, i);
      BcastLoop.MoveKeepsInv(LoopOf(job, h), s.loops[h], i);
    }
  }

  /** What a representative has performed stays performed, and others do not perform it. */
  lemma {:induction false} TrailKeeps<T>(job: Job<T>, trail: seq<nat>, h: nat, g: nat)
    requires ValidJob(job) && g < |job.before|
    ensures Messages(job, trail + [h]).pc[g] >= Messages(job, trail).pc[g]
    ensures Through(job, trail, g) ==> Through(job, trail + [h], g)
  {
    hide TheNet, Addressed, Ops;
    assert (trail + [h])[..|trail|] == trail;
  }

  lemma {:induction false} OthersStay<T>(job: Job<T>, s: State<T>, h: nat, i: nat, g: nat, j: nat)
    requires ValidJob(job) && Shaped(job, s) && Enabled(job, s, h, i, false) && HostOk(job, s, h)
    requires g < |job.before| && j < |job.before[g]| && (g != h || j != i) && LegOk(job, s, g, j)
    ensures LegOk(job, Step(job, s, h, i), g, j)
  {
    hide Step, Through, HostOk, BcastSize, Enabled, Quiet, NoLoop, NumChunks;
    StepIs(job, s, h, i);
    TrailKeeps(job, s.trail, h, g);
  }

  lemma {:induction false} OwnStays<T>(job: Job<T>, s: State<T>, h: nat, i: nat)
    requires ValidJob(job) && Shaped(job, s) && Enabled(job, s, h, i, false) && HostOk(job, s, h)
    ensures LegOk(job, Step(job, s, h, i), h, i)
  {
    hide LegOk, Step, Through, BcastLoop.Inv, BcastSize, CanAct, Quiet, AtEnd, LoopNow;
    assert LegOk(job, s, h, i);
    match s.legs[h][i]
    case Looping => LooperStays(job, s, h, i);
    case Sending => SenderStays(job, s, h, i);
    case Waiting => WaiterStays(job, s, h, i);
  }

  lemma {:induction false} LooperStays<T>(job: Job<T>, s: State<T>, h: nat, i: nat)
    requires ValidJob(job) && Shaped(job, s) && Enabled(job, s, h, i, false)
    requires LegOk(job, s, h, i) && s.legs[h][i] == Looping
    ensures LegOk(job, Step(job, s, h, i), h, i)
  {
    hide Through, BcastLoop.Inv, BcastLoop.Enabled, BcastLoop.Move, LoopNow, LoopOf, BcastSize, CanAct, NumChunks;
  }

  lemma {:induction false} WaiterStays<T>(job: Job<T>, s: State<T>, h: nat, i: nat)
    requires ValidJob(job) && Shaped(job, s) && Enabled(job, s, h, i, false)
    requires LegOk(job, s, h, i) && s.legs[h][i] == Waiting
    ensures LegOk(job, Step(job, s, h, i), h, i)
  {
    hide Through, BcastSize, CanAct, NumChunks, LoopNow, NoLoop;
  }

  lemma {:induction false} SenderStays<T>(job: Job<T>, s: State<T>, h: nat, i: nat)
    requires ValidJob(job) && Shaped(job, s) && Enabled(job, s, h, i, false)
    requires LegOk(job, s, h, i) && s.legs[h][i] == Sending
    ensures LegOk(job, Step(job, s, h, i), h, i)
  {
    hide Through, BcastSize, CanAct, AtEnd, LoopNow;
    TrailKeeps(job, s.trail, h, h);
    assert OneEach(job) ==> |job.before[h]| == 1;
  }

  lemma {:induction false} StepKeepsInv<T>(job: Job<T>, s: State<T>, h: nat, i: nat)
    requires ValidJob(job) && Inv(job, s) && Enabled(job, s, h, i, false)
    ensures Inv(job, Step(job, s, h, i))
  {
    hide LegOk, Step, BcastLoop.Inv, LoopOf, BcastSize, Through, CanAct, LoopNow, BcastLoop.Enabled;
    assert HostOk(job, s, h);
    var s' := Step(job, s, h, i);
    StepIs(job, s, h, i);
    forall g | 0 <= g < |job.before|
      ensures HostOk(job, s', g)
    {
      assert HostOk(job, s, g);
      forall j | 0 <= j < |job.before[g]|
        ensures LegOk(job, s', g, j)
      {
        if g == h && j == i {
          OwnStays(job, s, h, i);
        } else {
          OthersStay(job, s, h, i, g, j);
        }
      }
    }
  }

  /** With one host there are no messages. */
  lemma {:induction false} NothingToSend<T>(job: Job<T>, trail: seq<nat>)
    requires ValidJob(job) && |job.before| == 1
    ensures Through(job, trail, 0)
  {
    hide BcastSize, Addressed, Consistent, Perform;
    assert Ops(job)[0] == [];
  }

  lemma {:induction false} InitialInv<T>(job: Job<T>, s: State<T>)
    requires ValidJob(job) && Initial(job, s)
    ensures Inv(job, s)
  {
    hide Through, BcastLoop.Inv, BcastLoop.Start, BcastSize, Chunks;
    if |job.before| == 1 {
      NothingToSend(job, s.trail);
    }
    forall h | 0 <= h < |job.before|
      ensures HostOk(job, s, h)
    {
      BcastLoop.StartInv(LoopOf(job, h), |job.before[h]|);
      forall i | 0 <= i < |job.before[h]|
        ensures LegOk(job, s, h, i)
      {
        assert s.legs[h][i] == if |job.before| == 1 then Looping else Sending;
      }
    }
  }

  lemma {:induction false} RunKeepsInv<T>(job: Job<T>, s: State<T>, sched: seq<(nat, nat)>)
    requires ValidJob(job) && Initial(job, s)
    ensures Inv(job, Run(job, s, sched))
    decreases |sched|
  {
    hide Inv, Step, Enabled, BcastLoop.Start, BcastSize;
    if sched == [] {
      InitialInv(job, s);
    } else {
      RunKeepsInv(job, s, sched[..|sched| - 1]);
      var before := Run(job, s, sched[..|sched| - 1]);
      var (h, i) := sched[|sched| - 1];
      if Enabled(job, before, h, i, false) {
        StepKeepsInv(job, before, h, i);
      }
    }
  }

  // ---------------------------------------------------------------- what everybody has at the end

  /** All chunks together are the root's data. */
  lemma {:induction false} ChunksMakeData<T>(job: Job<T>)
    requires ValidJob(job)
    ensures var chunks := Chunks(job, Data(job)); Flat(chunks, Ascending(|chunks|)) == Data(job)
  {
    hide BcastSize, Flat;
    var data, chunks := Data(job), Chunks(job, Data(job));
    assert Read(data, Segment(0, |data|)) == data;
    PiecesMakeWhole(chunks, data, job.chunk, |chunks|);
    PiecesJoin(data, |chunks|, job.chunk);
    if |data| > 0 {
      StripesOfOne(|data|, job.chunk);
    }
  }

  /** A process that is past the last chunk has copied out all of them. */
  lemma {:induction false} CopiedAll<T>(job: Job<T>, s: State<T>, h: nat, i: nat)
    requires ValidJob(job) && Shaped(job, s) && h < |job.before| && i < |job.before[h]| && HostOk(job, s, h)
    requires i != Rep(job, h) && AtEnd(job, s, h, i)
    ensures s.loops[h].out[i] == Chunks(job, Data(job))
  {
    hide BcastSize, Chunks, NumChunks, LegOk, BcastLoop.FlagIs, BcastLoop.BufferIs, BcastLoop.Together, BcastLoop.Led;
    var me, loop := s.loops[h].procs[i], LoopOf(job, h);
    assert BcastLoop.InLoop(|loop.chunks|, me) && BcastLoop.OutIs(loop, me, s.loops[h].out[i]);
  }

  /**
   In every run of all processes of all hosts, a process that has returned from `ulm_bcast` has
   the root's data at the front of its buffer, and the rest of the buffer is as it was.
   */
  lemma {:induction false} BcastDelivers<T>(job: Job<T>, s: State<T>, sched: seq<(nat, nat)>, h: nat, i: nat)
    requires ValidJob(job) && Initial(job, s) && h < |job.before| && i < |job.before[h]|
    requires Run(job, s, sched).legs[h][i] == Returned
    ensures Received(job.before[job.rootHost][job.root], 0, job.count * job.extent,
                     Memory(job, Run(job, s, sched), h, i), job.before[h][i])
  {
    hide Received, Run, BcastLoop.Inv, BcastLoop.Start, BcastSize, Data, Chunks, LoopOf, LoopNow, Through, Write,
      Messages, AtEnd;
    RunKeepsInv(job, s, sched);
    var s' := Run(job, s, sched);
    assert HostOk(job, s', h) && LegOk(job, s', h, i);
    if i == Rep(job, h) {
      LoopHasData(job, s', h, i);
      ThroughHasData(job, s'.trail, h);
    } else {
      assert |job.before[h]| > 1;
      CopiedAll(job, s', h, i);
      ChunksMakeData(job);
    }
    DataReceived(job, h, i);
  }

  /** To have the root's data in front is to have every byte of it. */
  lemma {:induction false} DataReceived<T>(job: Job<T>, h: nat, i: nat)
    requires ValidJob(job) && h < |job.before| && i < |job.before[h]|
    ensures Received(job.before[job.rootHost][job.root], 0, job.count * job.extent,
                     Write(job.before[h][i], 0, Data(job)), job.before[h][i])
  {
    var root, mine := job.before[job.rootHost][job.root], job.before[h][i];
    ReceivedIs(root, 0, BcastSize(job), Write(mine, 0, Data(job)), mine);
    assert Data(job) == Read(root, Segment(0, BcastSize(job)));
  }

  // ---------------------------------------------------------------- nobody waits for ever

  /** While a representative is not through its messages, some representative can act on its own. */
  lemma {:induction false} MessagesMove<T>(job: Job<T>, trail: seq<nat>, h: nat) returns (p: nat)
    requires ValidJob(job) && h < |job.before| && !Through(job, trail, h)
    ensures p < |job.before| && !Through(job, trail, p)
    ensures CanAct(TheNet(job), Ops(job), Messages(job, trail), p, true)
  {
    hide BcastPlan, Consistent, Addressed, Perform, Holds, BcastSize, Blocks, Trace, Accepting, CanAct, PostedBy;
    BlockedRunDelivers(job);
    PhasesRun(BcastPlan(job), Entering(job), trail);
    p :| CanAct(TheNet(job), Ops(job), Messages(job, trail), p, true);
    ActorsExist(job, trail, p);
  }

  lemma {:induction false} ActorsExist<T>(job: Job<T>, trail: seq<nat>, p: nat)
    requires ValidJob(job) && CanAct(TheNet(job), Ops(job), Messages(job, trail), p, true)
    ensures p < |job.before| && !Through(job, trail, p)
  {
    hide TheNet, Messages, Ops, BcastSize;
  }

  /** On a host where all are past the interhost step and one has not returned, somebody can go on. */
  lemma {:induction false} HostMoves<T>(job: Job<T>, s: State<T>, h: nat, x: nat) returns (i: nat)
    requires ValidJob(job) && Shaped(job, s) && h < |job.before| && HostOk(job, s, h)
    requires x < |job.before[h]| && s.legs[h][x] != Returned
    requires Quiet(s.legs[h])
    ensures Enabled(job, s, h, i, true)
  {
    hide BcastLoop.Inv, BcastLoop.Enabled, BcastSize, LoopOf, LoopNow, Through, CanAct, NumChunks, LegOk, AtEnd;
    if w :| 0 <= w < |job.before[h]| && s.legs[h][w] == Waiting {
      i := w;
    } else if AtEnd(job, s, h, x) {
      i := x;
    } else {
      LoopHasData(job, s, h, x);
      NotAllDone(job, s, h, x);
      i := BcastLoop.SomebodyMoves(LoopOf(job, h), s.loops[h]);
      MoverIsLooping(job, s, h, x, i);
    }
  }

  lemma {:induction false} NotAllDone<T>(job: Job<T>, s: State<T>, h: nat, x: nat)
    requires ValidJob(job) && Shaped(job, s) && h < |job.before| && x < |job.before[h]| && !AtEnd(job, s, h, x)
    ensures !BcastLoop.AllDone(LoopOf(job, h), s.loops[h])
  {
    hide BcastSize, NumChunks;
  }

  lemma {:induction false} MoverIsLooping<T>(job: Job<T>, s: State<T>, h: nat, x: nat, i: nat)
    requires ValidJob(job) && Shaped(job, s) && h < |job.before| && HostOk(job, s, h)
    requires x < |job.before[h]| && s.legs[h][x] == Looping && BcastLoop.Enabled(LoopOf(job, h), s.loops[h], i)
    requires forall j :: 0 <= j < |job.before[h]| ==> s.legs[h][j] != Sending && s.legs[h][j] != Waiting
    ensures i < |job.before[h]| && s.legs[h][i] == Looping
  {
    hide BcastLoop.Inv, BcastSize, Through, NumChunks;
    assert LegOk(job, s, h, i) && LegOk(job, s, h, x);
  }

  /** Until all have returned some process can go on, even with synchronous sends. */
  lemma {:induction false} BcastNeverStuck<T>(job: Job<T>, s: State<T>, sched: seq<(nat, nat)>)
    requires ValidJob(job) && Initial(job, s)
    ensures var s' := Run(job, s, sched);
      || (forall h, i {:trigger s'.legs[h][i]} :: 0 <= h < |job.before| && 0 <= i < |job.before[h]| ==>
            s'.legs[h][i] == Returned)
      || exists h, i :: Enabled(job, s', h, i, true)
  {
    hide Run, HostOk, BcastLoop.Start, BcastSize, Enabled;
    RunKeepsInv(job, s, sched);
    var s' := Run(job, s, sched);
    if h, i :| 0 <= h < |job.before| && 0 <= i < |job.before[h]| && s'.legs[h][i] != Returned {
      assert HostOk(job, s', h);
      if j :| 0 <= j < |job.before[h]| && s'.legs[h][j] == Sending {
        SenderMoves(job, s', h, j);
      } else {
        var m := HostMoves(job, s', h, i);
      }
    }
  }

  lemma {:induction false} SenderMoves<T>(job: Job<T>, s: State<T>, h: nat, j: nat)
    requires ValidJob(job) && Inv(job, s) && h < |job.before| && j < |job.before[h]| && s.legs[h][j] == Sending
    ensures exists g, i :: Enabled(job, s, g, i, true)
  {
    hide BcastSize, Through, CanAct, Messages, HostOk;
    if j != Rep(job, h) || Through(job, s.trail, h) {
      assert Enabled(job, s, h, j, true);
    } else {
      var p := MessagesMove(job, s.trail, h);
      assert HostOk(job, s, p);
      StillSending(job, s, p);
      assert Enabled(job, s, p, Rep(job, p), true);
    }
  }

  lemma {:induction false} StillSending<T>(job: Job<T>, s: State<T>, p: nat)
    requires ValidJob(job) && Shaped(job, s) && p < |job.before| && HostOk(job, s, p) && !Through(job, s.trail, p)
    ensures Rep(job, p) < |job.before[p]| && s.legs[p][Rep(job, p)] == Sending
  {
    hide BcastSize, Through, BcastLoop.Inv, AtEnd;
    assert LegOk(job, s, p, Rep(job, p));
  }
}
