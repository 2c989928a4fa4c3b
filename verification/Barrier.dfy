/**
 `ulm_barrier` over all processes of a communicator, called again and again: in a call a process
 goes through a shared-memory barrier on its host, the hosts' representatives through the message
 barrier, and all through a second shared-memory barrier.  A process may be in the next call
 while others are still in this one; the on-host counters and the channels are never reset.
 */
module Barrier {
  import opened Network
  import opened Buffers
  import opened Phases
  import opened BarrierInterhost
  import CounterBarrier

  /** Host `host` has begun the message barrier of call k. */
  datatype Call = Call(host: nat, k: nat)

  /**
   The communicator: the representatives' scripts for one call, processes per host, on-host
   barriers that were completed before, and how often everybody calls.
   */
  datatype Comm = Comm(scripts: seq<seq<Round<()>>>, nproc: seq<nat>, base: seq<nat>, calls: nat)

  ghost predicate ValidComm(comm: Comm) {
    && AreScripts(comm.scripts, |comm.nproc|) && |comm.base| == |comm.nproc| >= 1
    && (forall h :: 0 <= h < |comm.nproc| ==> comm.nproc[h] >= 1)
  }

  // ---------------------------------------------------------------- the message barriers of all calls

  type Knowledge = Host<set<Call>, ()>

  type Traffic = Config<Knowledge, Option<set<Call>>>

  type Machine = Net<Deed<()>, Knowledge, Option<set<Call>>>

  ghost function Len(comm: Comm): nat
    requires ValidComm(comm)
  {
    ScriptLength(|comm.nproc|)
  }

  ghost function CallsOf(comm: Comm): (phases: seq<seq<seq<Round<()>>>>)
    ensures |phases| == comm.calls && forall k :: 0 <= k < comm.calls ==> phases[k] == comm.scripts
  {
    seq(comm.calls, k => comm.scripts)
  }

  /** A host that begins the message barrier of a call knows that it has entered it. */
  function Begin(h: nat, k: nat, stage: nat, st: Knowledge): Knowledge {
    if stage == 0 then Host(st.shared + {Call(h, k)}, ()) else st
  }

  lemma {:induction false} CallsInStep(comm: Comm)
    requires ValidComm(comm)
    ensures Phased(CallsOf(comm), |comm.nproc|, Len(comm))
  {
    hide ScriptLength;
    forall h | 0 <= h < |comm.nproc|
      ensures |comm.scripts[h]| == Len(comm)
    {
      assert IsScript(comm.scripts[h], h, |comm.nproc|);
    }
    assert InStep(comm.scripts, |comm.nproc|, Len(comm));
  }

  ghost function BarrierPlan(comm: Comm): (plan: Plan<(), set<Call>, (), set<Call>>)
    requires ValidComm(comm)
    ensures IsPlan(plan) && |plan.phases| == comm.calls && plan.n == |comm.nproc| && plan.len == Len(comm)
  {
    CallsInStep(comm);
    Plan(BarrierNet<Call>([]), CallsOf(comm), |comm.nproc|, Len(comm),
         (h: nat, k: nat, stage: nat, st: Knowledge) => Begin(h, k, stage, st))
  }

  lemma {:induction false} CallNet(comm: Comm, k: nat)
    requires ValidComm(comm) && k < comm.calls
    ensures PhaseOf(BarrierPlan(comm), k) == BarrierNet<Call>(comm.scripts)
    ensures Consistent(PhaseOf(BarrierPlan(comm), k))
  {
    hide AreScripts, ScriptLength;
    BarrierPairs(BarrierNet<Call>(comm.scripts), |comm.nproc|);
  }

  lemma {:induction false} CallsPair(comm: Comm)
    requires ValidComm(comm)
    ensures AllConsistent(BarrierPlan(comm)) && Consistent(PhaseNet(BarrierPlan(comm)))
  {
    hide BarrierPlan, Consistent, PhaseNet, BarrierNet, ValidComm;
    forall k | 0 <= k < comm.calls
      ensures Consistent(PhaseOf(BarrierPlan(comm), k))
    {
      CallNet(comm, k);
    }
    PhasesPair(BarrierPlan(comm));
  }

  ghost function TheNet(comm: Comm): (net: Machine)
    requires ValidComm(comm)
    ensures Consistent(net) && |net.scripts| == |comm.nproc|
  {
    CallsPair(comm);
    PhaseNet(BarrierPlan(comm))
  }

  ghost function Unaware(n: nat): (init: seq<Knowledge>)
    ensures |init| == n && forall h :: 0 <= h < n ==> init[h] == Host({}, ())
  {
    seq(n, h => Host({}, ()))
  }

  /** The messages after the moves in `trail`. */
  ghost function Messages(comm: Comm, trail: seq<nat>): (c: Traffic)
    requires ValidComm(comm)
    ensures WellFormed(TheNet(comm), c)
  {
    Exec(TheNet(comm), Start(TheNet(comm), Unaware(|comm.nproc|)), trail)
  }

  /** Where the representative of a host is in its messages when it has done k calls. */
  ghost function Mark(comm: Comm, k: nat): nat
    requires ValidComm(comm)
  {
    3 * Base(k, Len(comm))
  }

  lemma {:induction false} MarksGrow(comm: Comm, a: nat, b: nat)
    requires ValidComm(comm)
    ensures a <= b ==> Mark(comm, a) <= Mark(comm, b)
    ensures a < b ==> Mark(comm, a) + 3 * (Len(comm) + 2) <= Mark(comm, b)
    ensures Mark(comm, a) < Mark(comm, b) ==> a < b
  {
    hide ScriptLength, Base, ValidComm;
    if a <= b {
      BaseMonotone(a, b, Len(comm));
    } else {
      BaseMonotone(b, a, Len(comm));
    }
  }

  // ---------------------------------------------------------------- knowledge is never ahead of the facts

  /** The host has begun the message barrier of that call. */
  ghost predicate Begun(comm: Comm, c: Traffic, x: Call)
    requires ValidComm(comm)
  {
    x.host < |c.pc| && c.pc[x.host] > Mark(comm, x.k) + 1
  }

  ghost predicate AllBegun(comm: Comm, c: Traffic, known: set<Call>)
    requires ValidComm(comm)
  {
    forall x :: x in known ==> Begun(comm, c, x)
  }

  ghost predicate Sound(comm: Comm, c: Traffic)
    requires ValidComm(comm) && WellFormed(TheNet(comm), c)
  {
    && (forall h :: 0 <= h < |comm.nproc| ==> AllBegun(comm, c, c.local[h].shared))
    && (forall p, q, i {:trigger c.chan[p][q][i]} ::
          0 <= p < |comm.nproc| && 0 <= q < |comm.nproc| && 0 <= i < |c.chan[p][q]| && c.chan[p][q][i].Some? ==>
            AllBegun(comm, c, c.chan[p][q][i].value))
  }

  /** Which own step a host takes in a round. */
  lemma {:induction false} OwnAt(comm: Comm, h: nat, r: nat)
    requires ValidComm(comm) && h < |comm.nproc| && InAt(TheNet(comm), h, r).Some?
    ensures var how := InAt(TheNet(comm), h, r).value.how;
      how.Own? ==> how.host == h && (how.stage == 0 ==> 3 * r == Mark(comm, how.phase))
  {
    hide Base, ValidComm, BarrierPlan, PhaseNet, ScriptLength, RoundAt;
    var plan := BarrierPlan(comm);
    if r < Base(comm.calls, Len(comm)) {
      var k, j := Locate(r, comm.calls, Len(comm));
      DeedAt(plan, h, k, j);
    } else {
      NoDeeds(plan, h, r);
    }
  }

  lemma {:induction false} StayBegun(comm: Comm, c: Traffic, c': Traffic, known: set<Call>)
    requires ValidComm(comm) && AllBegun(comm, c, known) && |c.pc| == |c'.pc|
    requires forall h :: 0 <= h < |c.pc| ==> c.pc[h] <= c'.pc[h]
    ensures AllBegun(comm, c', known)
  {
    hide ValidComm, Mark;
    forall x | x in known
      ensures Begun(comm, c', x)
    {
      assert Begun(comm, c, x);
    }
  }

  /** What a host knows after a receive. */
  lemma {:induction false} ReceiveIsSound(comm: Comm, c: Traffic, p: nat)
    requires ValidComm(comm) && WellFormed(TheNet(comm), c) && Sound(comm, c) && CanMove(TheNet(comm), c, p, false)
    requires c.pc[p] % 3 == 1
    ensures AllBegun(comm, Move(TheNet(comm), c, p), Move(TheNet(comm), c, p).local[p].shared)
  {
    hide ValidComm, Mark, Consistent, RoundAt, BarrierPlan, AllBegun;
    var net, c', r := TheNet(comm), Move(TheNet(comm), c, p), c.pc[p] / 3;
    assert AllBegun(comm, c, c.local[p].shared);
    StayBegun(comm, c, c', c.local[p].shared);
    if InAt(net, p, r).Some? {
      var q, how := InAt(net, p, r).value.peer, InAt(net, p, r).value.how;
      Paired(net, p, r);
      OwnAt(comm, p, r);
      NewKnowledge(comm, p, how, c.local[p], c.chan[q][p][0]);
      if how.Msg? && c.chan[q][p][0].Some? {
        assert AllBegun(comm, c, c.chan[q][p][0].value);
        StayBegun(comm, c, c', c.chan[q][p][0].value);
        BothBegun(comm, c', c.local[p].shared, c.chan[q][p][0].value);
      } else if how.Own? && how.stage == 0 {
        JustBegun(comm, c', p, how.phase);
        BothBegun(comm, c', c.local[p].shared, {Call(p, how.phase)});
      }
    }
  }

  lemma {:induction false} NewKnowledge(comm: Comm, p: nat, how: Deed<()>, st: Knowledge, m: Option<set<Call>>)
    requires ValidComm(comm)
    ensures var after := TheNet(comm).unpack(how, st, m).shared;
      && (how.Msg? && m.Some? ==> after == st.shared + m.value)
      && (how.Own? && how.stage == 0 ==> after == st.shared + {Call(how.host, how.phase)})
      && (!(how.Msg? && m.Some?) && !(how.Own? && how.stage == 0) ==> after == st.shared)
  {
    hide ValidComm, Consistent, ScriptLength;
  }

  lemma {:induction false} BothBegun(comm: Comm, c: Traffic, a: set<Call>, b: set<Call>)
    requires ValidComm(comm) && AllBegun(comm, c, a) && AllBegun(comm, c, b)
    ensures AllBegun(comm, c, a + b)
  {
    hide ValidComm, Begun;
  }

  lemma {:induction false} JustBegun(comm: Comm, c: Traffic, p: nat, k: nat)
    requires ValidComm(comm) && p < |c.pc| && c.pc[p] == Mark(comm, k) + 2
    ensures AllBegun(comm, c, {Call(p, k)})
  {
    hide ValidComm, Mark;
  }

  lemma {:induction false} MoveKeepsSound(comm: Comm, c: Traffic, p: nat)
    requires ValidComm(comm) && WellFormed(TheNet(comm), c) && Sound(comm, c) && CanMove(TheNet(comm), c, p, false)
    ensures Sound(comm, Move(TheNet(comm), c, p))
  {
    hide ValidComm, Mark, Consistent, RoundAt, BarrierPlan, AllBegun;
    var net, c', n := TheNet(comm), Move(TheNet(comm), c, p), |comm.nproc|;
    forall h | 0 <= h < n
      ensures AllBegun(comm, c', c'.local[h].shared)
    {
      assert AllBegun(comm, c, c.local[h].shared);
      StayBegun(comm, c, c', c.local[h].shared);
      if h == p && c.pc[p] % 3 == 1 {
        ReceiveIsSound(comm, c, p);
      }
    }
    forall a, b, i | 0 <= a < n && 0 <= b < n && 0 <= i < |c'.chan[a][b]| && c'.chan[a][b][i].Some?
      ensures AllBegun(comm, c', c'.chan[a][b][i].value)
    {
      ChannelIsSound(comm, c, p, a, b, i);
    }
  }

  /** What is in flight after a move was in flight before, or has just been sent. */
  lemma {:induction false} ChannelIsSound(comm: Comm, c: Traffic, p: nat, a: nat, b: nat, i: nat)
    requires ValidComm(comm) && WellFormed(TheNet(comm), c) && Sound(comm, c) && CanMove(TheNet(comm), c, p, false)
    requires a < |comm.nproc| && b < |comm.nproc| && i < |Move(TheNet(comm), c, p).chan[a][b]|
    requires Move(TheNet(comm), c, p).chan[a][b][i].Some?
    ensures AllBegun(comm, Move(TheNet(comm), c, p), Move(TheNet(comm), c, p).chan[a][b][i].value)
  {
    hide ValidComm, Mark, Consistent, RoundAt, BarrierPlan, AllBegun;
    var net, c', r := TheNet(comm), Move(TheNet(comm), c, p), c.pc[p] / 3;
    var m := c'.chan[a][b][i].value;
    if i < |c.chan[a][b]| && c.chan[a][b][i] == Some(m) {
      StayBegun(comm, c, c', m);
    } else if i + 1 < |c.chan[a][b]| && c.chan[a][b][i + 1] == Some(m) {
      StayBegun(comm, c, c', m);
    } else {
      assert AllBegun(comm, c, c.local[p].shared);
      SentKnowledge(comm, c, p, a, b, i);
      StayBegun(comm, c, c', c.local[p].shared);
    }
  }

  lemma {:induction false} SentKnowledge(comm: Comm, c: Traffic, p: nat, a: nat, b: nat, i: nat)
    requires ValidComm(comm) && WellFormed(TheNet(comm), c) && CanMove(TheNet(comm), c, p, false)
    requires a < |comm.nproc| && b < |comm.nproc| && i < |Move(TheNet(comm), c, p).chan[a][b]|
    requires Move(TheNet(comm), c, p).chan[a][b][i].Some?
    requires !(i < |c.chan[a][b]| && c.chan[a][b][i] == Move(TheNet(comm), c, p).chan[a][b][i])
    requires !(i + 1 < |c.chan[a][b]| && c.chan[a][b][i + 1] == Move(TheNet(comm), c, p).chan[a][b][i])
    ensures Move(TheNet(comm), c, p).chan[a][b][i].value == c.local[p].shared
  {
    hide ValidComm, Consistent, RoundAt, BarrierPlan, ScriptLength;
    PacksAll(comm);
  }

  lemma {:induction false} PacksAll(comm: Comm)
    requires ValidComm(comm)
    ensures forall how, st {:trigger TheNet(comm).pack(how, st)} ::
      TheNet(comm).pack(how, st).Some? ==> TheNet(comm).pack(how, st).value == st.shared
    ensures !TheNet(comm).sendFirst
  {
    hide ValidComm, Consistent, ScriptLength;
  }

  lemma {:induction false} RunIsSound(comm: Comm, trail: seq<nat>)
    requires ValidComm(comm)
    ensures Sound(comm, Messages(comm, trail))
    decreases |trail|
  {
    hide ValidComm, TheNet, CanMove, Move, AllBegun;
    if trail != [] {
      RunIsSound(comm, trail[..|trail| - 1]);
      var before := Messages(comm, trail[..|trail| - 1]);
      var p := trail[|trail| - 1];
      if CanMove(TheNet(comm), before, p, false) {
        MoveKeepsSound(comm, before, p);
      }
    } else {
      NothingKnown(comm);
    }
  }

  lemma {:induction false} NothingKnown(comm: Comm)
    requires ValidComm(comm)
    ensures Sound(comm, Messages(comm, []))
  {
    hide ValidComm, TheNet, Mark;
  }

  // ---------------------------------------------------------------- who is through a call knows that all have begun it

  /** Knowledge only grows. */
  lemma {:induction false} KnowledgeGrows(comm: Comm, t: seq<seq<Knowledge>>, a: nat, b: nat, h: nat)
    requires ValidComm(comm) && IsTrace(TheNet(comm), Unaware(|comm.nproc|), t) && a <= b < |t| && h < |comm.nproc|
    ensures |t[a]| == |t[b]| == |comm.nproc| && t[a][h].shared <= t[b][h].shared
    decreases b
  {
    hide ValidComm, TheNet, RoundAt, IsTrace;
    var net, init := TheNet(comm), Unaware(|comm.nproc|);
    TraceShape(net, init, t, a);
    TraceShape(net, init, t, b);
    if a < b {
      KnowledgeGrows(comm, t, a, b - 1, h);
      TraceNext(net, init, t, b - 1, h);
      if InAt(net, h, b - 1).Some? {
        var q, how := InAt(net, h, b - 1).value.peer, InAt(net, h, b - 1).value.how;
        NewKnowledge(comm, h, how, t[b - 1][h], net.pack(OutAt(net, q, b - 1).value.how, t[b - 1][q]));
      }
    }
  }

  /** The messages of call k tell every host that every host has begun it. */
  lemma {:induction false} CallSpreads(comm: Comm, t: seq<seq<Knowledge>>, k: nat, h: nat, g: nat)
    requires ValidComm(comm) && |comm.nproc| > 1 && k < comm.calls && h < |comm.nproc| && g < |comm.nproc|
    requires RunOf(BarrierPlan(comm), Unaware(|comm.nproc|), t)
    requires Base(k + 1, Len(comm)) < |t| && forall r :: 0 <= r < |t| ==> |t[r]| == |comm.nproc|
    ensures Call(g, k) in t[Base(k + 1, Len(comm))][h].shared
  {
    hide AreScripts, BarrierPlan, RunOf, Consistent, IsTrace, Known, Slice;
    var plan, n, init, b := BarrierPlan(comm), |comm.nproc|, Unaware(|comm.nproc|), Base(k, Len(comm));
    CallsPair(comm);
    OwnStepIs(comm, t, k, g);
    OwnStepIs(comm, t, k, h);
    SliceIsTrace(plan, init, t, k);
    CallNet(comm, k);
    var u := Slice(plan, t, k);
    assert Call(g, k) in u[0][g];
    KnowsAll(h, n, g);
    KnowledgeSpreads(PhaseOf(plan, k), u[0], u, n, Len(comm), h, Call(g, k));
    assert SomeKnew(u[0], Known(h, Len(comm), n), Call(g, k));
    assert u[Len(comm)][h] == t[b + 1 + Len(comm)][h].shared;
  }

  lemma {:induction false} OwnStepIs(comm: Comm, t: seq<seq<Knowledge>>, k: nat, h: nat)
    requires ValidComm(comm) && k < comm.calls && h < |comm.nproc|
    requires RunOf(BarrierPlan(comm), Unaware(|comm.nproc|), t)
    requires Base(k + 1, Len(comm)) < |t| && forall r :: 0 <= r < |t| ==> |t[r]| == |comm.nproc|
    ensures var b, len := Base(k, Len(comm)), Len(comm);
      Call(h, k) in t[b + 1][h].shared && t[b + len + 2][h] == t[b + len + 1][h]
  {
    hide ValidComm, RunOf, ScriptLength, IsPlan;
    OwnSteps(BarrierPlan(comm), Unaware(|comm.nproc|), t, k, h);
  }

  lemma {:induction false} ThroughKnowsAll(comm: Comm, k: nat, r: nat, h: nat, g: nat)
    requires ValidComm(comm) && |comm.nproc| > 1 && k < comm.calls && h < |comm.nproc| && g < |comm.nproc|
    requires Base(k + 1, Len(comm)) <= r <= Base(comm.calls, Len(comm))
    ensures Call(g, k) in Sync(TheNet(comm), Unaware(|comm.nproc|), r)[h].shared
  {
    hide AreScripts, BarrierPlan, Consistent, PhaseNet, Base, Sync, ScriptLength;
    CallsPair(comm);
    var t := TheRun(BarrierPlan(comm), Unaware(|comm.nproc|));
    forall i | 0 <= i < |t|
      ensures |t[i]| == |comm.nproc|
    {
      TraceShape(TheNet(comm), Unaware(|comm.nproc|), t, i);
    }
    CallSpreads(comm, t, k, h, g);
    KnowledgeGrows(comm, t, Base(k + 1, Len(comm)), r, h);
    assert t[r] == Sync(TheNet(comm), Unaware(|comm.nproc|), r);
  }

  lemma {:induction false} ScriptEnds(comm: Comm, h: nat)
    requires ValidComm(comm) && h < |comm.nproc|
    ensures |TheNet(comm).scripts[h]| == Base(comm.calls, Len(comm))
  {
    hide ValidComm, Base, BarrierPlan, PhaseNet;
    NoDeeds(BarrierPlan(comm), h, Base(comm.calls, Len(comm)));
  }

  /** When one host is through the messages of call k, every host has begun them. */
  lemma {:induction false} ThroughMeansAllBegun(comm: Comm, trail: seq<nat>, k: nat, h: nat, g: nat)
    requires ValidComm(comm) && |comm.nproc| > 1 && k < comm.calls && h < |comm.nproc| && g < |comm.nproc|
    requires Messages(comm, trail).pc[h] >= Mark(comm, k + 1)
    ensures Messages(comm, trail).pc[g] > Mark(comm, k)
  {
    hide AreScripts, TheNet, Base, Sync, ScriptLength;
    var net, c := TheNet(comm), Messages(comm, trail);
    RunIsSound(comm, trail);
    LocalStateIsRoundState(net, Unaware(|comm.nproc|), trail, h);
    ScriptEnds(comm, h);
    var r := ReceivedRounds(net.sendFirst, c.pc[h]);
    ThroughKnowsAll(comm, k, r, h, g);
    assert AllBegun(comm, c, c.local[h].shared);
    assert Begun(comm, c, Call(g, k));
  }

  // ---------------------------------------------------------------- the processes

  /** Outside a call, in the first on-host barrier, between the two, in the second. */
  datatype Leg = Away | First | Between | Second

  /** How often a process has returned, and where it is now. */
  datatype Proc = Proc(returned: nat, leg: Leg)

  /** `smp[h]` is the on-host barrier; `trail` lists the hosts whose representatives have moved in their messages. */
  datatype State = State(procs: seq<seq<Proc>>, smp: seq<CounterBarrier.State>, trail: seq<nat>)

  ghost predicate Shaped(comm: Comm, s: State) {
    && |s.procs| == |s.smp| == |comm.nproc|
    && (forall h :: 0 <= h < |comm.nproc| ==> |s.procs[h]| == |s.smp[h].procs| == comm.nproc[h])
  }

  /** The representative is through the messages of its call. */
  ghost predicate Through(comm: Comm, trail: seq<nat>, h: nat, k: nat)
    requires ValidComm(comm) && h < |comm.nproc|
  {
    Messages(comm, trail).pc[h] >= Mark(comm, k + 1)
  }

  /** Can process i of host h take a step?  With `rendezvous`, sends wait for receives. */
  ghost predicate Enabled(comm: Comm, s: State, h: nat, i: nat, rendezvous: bool)
    requires ValidComm(comm) && Shaped(comm, s)
  {
    h < |comm.nproc| && i < comm.nproc[h] && s.procs[h][i].returned < comm.calls &&
    match s.procs[h][i].leg
    case Away => true
    case Between =>
      |comm.nproc| == 1 || i != 0 || Through(comm, s.trail, h, s.procs[h][i].returned) ||
      CanMove(TheNet(comm), Messages(comm, s.trail), h, rendezvous)
    case _ => CounterBarrier.Enabled(s.smp[h], i)
  }

  ghost function Put(s: State, h: nat, i: nat, p: Proc): State
    requires h < |s.procs| && i < |s.procs[h]|
  {
    var row: seq<Proc> := s.procs[h][i := p];
    s.(procs := s.procs[h := row])
  }

  /** One step in an on-host barrier; `next` is where the process goes when it leaves it. */
  ghost function SmpStep(s: State, h: nat, i: nat, next: Proc): State
    requires h < |s.procs| == |s.smp| && i < |s.procs[h]| == |s.smp[h].procs| && CounterBarrier.Enabled(s.smp[h], i)
  {
    var moved := s.(smp := s.smp[h := CounterBarrier.Move(s.smp[h], i)]);
    if s.smp[h].procs[i].phase == CounterBarrier.Spinning then Put(moved, h, i, next) else moved
  }

  ghost function Step(comm: Comm, s: State, h: nat, i: nat): (s': State)
    requires ValidComm(comm) && Shaped(comm, s) && Enabled(comm, s, h, i, false)
    ensures Shaped(comm, s')
  {
    var me, n, np := s.procs[h][i], |comm.nproc|, comm.nproc[h];
    match me.leg
    case Away => Put(s, h, i, me.(leg := if np > 1 then First else Between))
    case First => SmpStep(s, h, i, me.(leg := Between))
    case Between =>
      if n == 1 || (np == 1 && Through(comm, s.trail, h, me.returned)) then Put(s, h, i, Proc(me.returned + 1, Away))
      else if i != 0 || Through(comm, s.trail, h, me.returned) then Put(s, h, i, me.(leg := Second))
      else s.(trail := s.trail + [h])
    case Second => SmpStep(s, h, i, Proc(me.returned + 1, Away))
  }

  /** All outside, and the on-host barriers between two uses. */
  ghost predicate Initial(comm: Comm, s: State)
    requires ValidComm(comm)
  {
    && Shaped(comm, s) && s.trail == []
    && (forall h, i {:trigger s.procs[h][i]} :: 0 <= h < |comm.nproc| && 0 <= i < comm.nproc[h] ==>
          s.procs[h][i] == Proc(0, Away))
    && (forall h :: 0 <= h < |comm.nproc| ==> Unused(s.smp[h], comm.base[h]))
  }

  /** All processes have gone through the on-host barrier `base` times. */
  ghost predicate Unused(smp: CounterBarrier.State, base: nat) {
    && smp.counter == |smp.procs| * base
    && forall i :: 0 <= i < |smp.procs| ==>
         smp.procs[i] == CounterBarrier.Proc(CounterBarrier.Outside, |smp.procs| * base, base, base)
  }

  /** A schedule names the process that runs next; one that cannot move waits. */
  ghost function Run(comm: Comm, s: State, sched: seq<(nat, nat)>): (s': State)
    requires ValidComm(comm) && Shaped(comm, s)
    ensures Shaped(comm, s')
    decreases |sched|
  {
    if sched == [] then s
    else
      var before := Run(comm, s, sched[..|sched| - 1]);
      var (h, i) := sched[|sched| - 1];
      if Enabled(comm, before, h, i, false) then Step(comm, before, h, i) else before
  }

  // ---------------------------------------------------------------- the invariant of one host

  /** The on-host barriers in one call. */
  function PerCall(n: nat): nat { if n > 1 then 2 else 1 }

  /** Where a process is, and where it is in the on-host barrier. */
  ghost predicate ProcOk(calls: nat, n: nat, np: nat, base: nat, p: Proc, q: CounterBarrier.Proc) {
    && p.returned <= calls && (p.returned == calls ==> p.leg == Away)
    && (np == 1 ==> p.leg == Away || p.leg == Between) && (n == 1 ==> p.leg != Second)
    && (np > 1 ==>
          && q.exits == base + PerCall(n) * p.returned + (if p.leg == Between || p.leg == Second then 1 else 0)
          && (p.leg == Away || p.leg == Between ==> q.phase == CounterBarrier.Outside))
  }

  /** Where the representative is, and where it is in its messages. */
  ghost predicate RepOk(comm: Comm, p: Proc, pc: nat)
    requires ValidComm(comm)
  {
    |comm.nproc| > 1 ==>
      && Mark(comm, p.returned) <= pc <= Mark(comm, p.returned + 1)
      && (p.leg == Away || p.leg == First ==> pc == Mark(comm, p.returned))
      && (p.leg == Second ==> pc == Mark(comm, p.returned + 1))
  }

  ghost predicate HostOk(comm: Comm, s: State, h: nat)
    requires ValidComm(comm) && Shaped(comm, s) && h < |comm.nproc|
  {
    && (comm.nproc[h] > 1 ==> CounterBarrier.Inv(s.smp[h]))
    && RepOk(comm, s.procs[h][0], Messages(comm, s.trail).pc[h])
    && (forall i {:trigger s.procs[h][i]} :: 0 <= i < comm.nproc[h] ==>
          ProcOk(comm.calls, |comm.nproc|, comm.nproc[h], comm.base[h], s.procs[h][i], s.smp[h].procs[i]))
  }

  ghost predicate Inv(comm: Comm, s: State)
    requires ValidComm(comm)
  {
    Shaped(comm, s) && forall h :: 0 <= h < |comm.nproc| ==> HostOk(comm, s, h)
  }

  /** A step in the on-host barrier. */
  lemma {:induction false} SmpMoves(st: CounterBarrier.State, i: nat)
    requires CounterBarrier.Inv(st) && CounterBarrier.Enabled(st, i)
    ensures var next := CounterBarrier.Move(st, i);
      && CounterBarrier.Inv(next) && |next.procs| == |st.procs|
      && (forall j :: 0 <= j < |st.procs| && j != i ==> next.procs[j] == st.procs[j])
      && (st.procs[i].phase == CounterBarrier.Spinning ==>
            next.procs[i].exits == st.procs[i].exits + 1 && next.procs[i].phase == CounterBarrier.Outside)
      && (st.procs[i].phase != CounterBarrier.Spinning ==> next.procs[i].exits == st.procs[i].exits)
  {
    hide CounterBarrier.Inv;
    CounterBarrier.MoveKeepsInv(st, i);
  }

  /** The moving process keeps its part. */
  lemma {:induction false} OwnStays(comm: Comm, s: State, h: nat, i: nat)
    requires ValidComm(comm) && Shaped(comm, s) && Enabled(comm, s, h, i, false) && HostOk(comm, s, h)
    ensures var s' := Step(comm, s, h, i);
      ProcOk(comm.calls, |comm.nproc|, comm.nproc[h], comm.base[h], s'.procs[h][i], s'.smp[h].procs[i])
  {
    hide Messages, Mark, CounterBarrier.Inv, AreScripts;
    var me := s.procs[h][i];
    assert ProcOk(comm.calls, |comm.nproc|, comm.nproc[h], comm.base[h], me, s.smp[h].procs[i]);
    if me.leg == First || me.leg == Second {
      SmpMoves(s.smp[h], i);
    }
  }

  lemma {:induction false} OthersStay(comm: Comm, s: State, h: nat, i: nat, j: nat)
    requires ValidComm(comm) && Shaped(comm, s) && Enabled(comm, s, h, i, false) && HostOk(comm, s, h)
    requires j < comm.nproc[h] && j != i
    ensures var s' := Step(comm, s, h, i); s'.procs[h][j] == s.procs[h][j] && s'.smp[h].procs[j] == s.smp[h].procs[j]
  {
    hide Messages, Mark, CounterBarrier.Inv, AreScripts, ProcOk, RepOk;
    if s.procs[h][i].leg == First || s.procs[h][i].leg == Second {
      assert comm.nproc[h] > 1;
      SmpMoves(s.smp[h], i);
    }
  }

  lemma {:induction false} SmpStays(comm: Comm, s: State, h: nat, i: nat)
    requires ValidComm(comm) && Shaped(comm, s) && Enabled(comm, s, h, i, false) && HostOk(comm, s, h)
    requires comm.nproc[h] > 1
    ensures CounterBarrier.Inv(Step(comm, s, h, i).smp[h])
  {
    hide Messages, Mark, CounterBarrier.Inv, AreScripts, ProcOk, RepOk;
    if s.procs[h][i].leg == First || s.procs[h][i].leg == Second {
      SmpMoves(s.smp[h], i);
    }
  }

  /** The representative's place in its messages. */
  lemma {:induction false} RepStays(comm: Comm, s: State, h: nat, i: nat)
    requires ValidComm(comm) && Shaped(comm, s) && Enabled(comm, s, h, i, false) && HostOk(comm, s, h)
    ensures RepOk(comm, Step(comm, s, h, i).procs[h][0], Messages(comm, Step(comm, s, h, i).trail).pc[h])
  {
    hide Messages, Mark, CounterBarrier.Inv, AreScripts;
    var me, rep := s.procs[h][i], s.procs[h][0];
    if i != 0 {
      OthersStay(comm, s, h, i, 0);
      TrailStays(comm, s, h, i);
    } else {
      MarksGrow(comm, me.returned, me.returned + 1);
      MarksGrow(comm, me.returned + 1, me.returned + 2);
      TrailMoves(comm, s.trail, h, h);
    }
  }

  lemma {:induction false} TrailStays(comm: Comm, s: State, h: nat, i: nat)
    requires ValidComm(comm) && Shaped(comm, s) && Enabled(comm, s, h, i, false)
    ensures i != 0 ==> Step(comm, s, h, i).trail == s.trail
  {
    hide Messages, Mark, AreScripts;
  }

  /** A move of one representative is one action, and leaves the others where they are. */
  lemma {:induction false} TrailMoves(comm: Comm, trail: seq<nat>, h: nat, g: nat)
    requires ValidComm(comm) && g < |comm.nproc|
    ensures g != h ==> Messages(comm, trail + [h]).pc[g] == Messages(comm, trail).pc[g]
    ensures Messages(comm, trail).pc[g] <= Messages(comm, trail + [h]).pc[g] <= Messages(comm, trail).pc[g] + 1
  {
    hide TheNet, AreScripts;
    assert (trail + [h])[..|trail|] == trail;
  }

  lemma {:induction false} TrailOnlyGrows(comm: Comm, s: State, h: nat, i: nat)
    requires ValidComm(comm) && Shaped(comm, s) && Enabled(comm, s, h, i, false)
    ensures Step(comm, s, h, i).trail == s.trail || Step(comm, s, h, i).trail == s.trail + [h]
  {
    hide Messages, Mark, AreScripts;
  }

  /** A step on one host leaves the invariant of another. */
  lemma {:induction false} OtherHostStays(comm: Comm, s: State, h: nat, i: nat, g: nat)
    requires ValidComm(comm) && Shaped(comm, s) && Enabled(comm, s, h, i, false)
    requires g < |comm.nproc| && g != h && HostOk(comm, s, g)
    ensures HostOk(comm, Step(comm, s, h, i), g)
  {
    hide Messages, Mark, AreScripts, CounterBarrier.Inv, ProcOk, RepOk;
    TrailMoves(comm, s.trail, h, g);
    TrailOnlyGrows(comm, s, h, i);
    var s' := Step(comm, s, h, i);
    assert s'.procs[g] == s.procs[g] && s'.smp[g] == s.smp[g];
  }

  lemma {:induction false} OwnHostStays(comm: Comm, s: State, h: nat, i: nat)
    requires ValidComm(comm) && Shaped(comm, s) && Enabled(comm, s, h, i, false) && HostOk(comm, s, h)
    ensures HostOk(comm, Step(comm, s, h, i), h)
  {
    hide Step, AreScripts, CounterBarrier.Inv, Messages, Mark, ProcOk, RepOk;
    var s', np := Step(comm, s, h, i), comm.nproc[h];
    RepStays(comm, s, h, i);
    if np > 1 {
      SmpStays(comm, s, h, i);
    }
    forall j | 0 <= j < np
      ensures ProcOk(comm.calls, |comm.nproc|, np, comm.base[h], s'.procs[h][j], s'.smp[h].procs[j])
    {
      if j == i {
        OwnStays(comm, s, h, i);
      } else {
        OthersStay(comm, s, h, i, j);
        assert ProcOk(comm.calls, |comm.nproc|, np, comm.base[h], s.procs[h][j], s.smp[h].procs[j]);
      }
    }
  }

  lemma {:induction false} StepKeepsInv(comm: Comm, s: State, h: nat, i: nat)
    requires ValidComm(comm) && Inv(comm, s) && Enabled(comm, s, h, i, false)
    ensures Inv(comm, Step(comm, s, h, i))
  {
    hide HostOk, Step, AreScripts;
    assert HostOk(comm, s, h);
    forall g | 0 <= g < |comm.nproc|
      ensures HostOk(comm, Step(comm, s, h, i), g)
    {
      assert HostOk(comm, s, g);
      if g == h {
        OwnHostStays(comm, s, h, i);
      } else {
        OtherHostStays(comm, s, h, i, g);
      }
    }
  }

  /** An unused on-host barrier counts all arrivals. */
  lemma {:induction false} UnusedIsCounted(smp: CounterBarrier.State, base: nat)
    requires Unused(smp, base)
    ensures CounterBarrier.Inv(smp)
  {
    CounterBarrier.FullHouse(smp.procs, base);
    CounterBarrier.EnoughArrivals(smp.procs, base);
  }

  lemma {:induction false} NoMessages(comm: Comm, h: nat)
    requires ValidComm(comm) && h < |comm.nproc|
    ensures Messages(comm, []).pc[h] == Mark(comm, 0)
  {
    hide TheNet, AreScripts;
  }

  lemma {:induction false} InitialInv(comm: Comm, s: State)
    requires ValidComm(comm) && Initial(comm, s)
    ensures Inv(comm, s)
  {
    hide Messages, Mark, AreScripts, CounterBarrier.Inv;
    forall h | 0 <= h < |comm.nproc|
      ensures HostOk(comm, s, h)
    {
      UnusedIsCounted(s.smp[h], comm.base[h]);
      NoMessages(comm, h);
      MarksGrow(comm, 0, 1);
      assert s.procs[h][0] == Proc(0, Away);
    }
  }

  lemma {:induction false} RunKeepsInv(comm: Comm, s: State, sched: seq<(nat, nat)>)
    requires ValidComm(comm) && Initial(comm, s)
    ensures Inv(comm, Run(comm, s, sched))
    decreases |sched|
  {
    hide Inv, AreScripts, Step, Enabled, Unused;
    if sched == [] {
      InitialInv(comm, s);
    } else {
      RunKeepsInv(comm, s, sched[..|sched| - 1]);
      var before := Run(comm, s, sched[..|sched| - 1]);
      var (h, i) := sched[|sched| - 1];
      if Enabled(comm, before, h, i, false) {
        StepKeepsInv(comm, before, h, i);
      }
    }
  }

  // ---------------------------------------------------------------- nobody is early

  /** How often a process has called. */
  function Entered(p: Proc): nat { if p.leg == Away then p.returned else p.returned + 1 }

  /** How many on-host barriers a process has left in all its calls. */
  function Left(n: nat, p: Proc): nat {
    PerCall(n) * p.returned + (if p.leg == Between || p.leg == Second then 1 else 0)
  }

  /** What a process has left, all processes of its host have arrived at. */
  lemma {:induction false} ArrivedOnHost(comm: Comm, s: State, h: nat, i: nat, j: nat)
    requires ValidComm(comm) && Shaped(comm, s) && h < |comm.nproc| && HostOk(comm, s, h)
    requires i < comm.nproc[h] && j < comm.nproc[h]
    ensures Left(|comm.nproc|, s.procs[h][i]) <=
      Left(|comm.nproc|, s.procs[h][j]) + (if s.procs[h][j].leg == First || s.procs[h][j].leg == Second then 1 else 0)
  {
    hide Messages, Mark, AreScripts, RepOk, CounterBarrier.Arrivals;
    if i != j {
      var a, b := s.smp[h].procs[i], s.smp[h].procs[j];
      assert ProcOk(comm.calls, |comm.nproc|, comm.nproc[h], comm.base[h], s.procs[h][i], a);
      assert ProcOk(comm.calls, |comm.nproc|, comm.nproc[h], comm.base[h], s.procs[h][j], b);
      assert CounterBarrier.ProcInv(b, comm.nproc[h]);
      assert b.arrivals >= a.exits;
    }
  }

  /** A process that has returned k times has a representative through the messages of k calls. */
  lemma {:induction false} ReturnedMeansThrough(comm: Comm, s: State, h: nat, i: nat)
    requires ValidComm(comm) && Shaped(comm, s) && h < |comm.nproc| && HostOk(comm, s, h)
    requires |comm.nproc| > 1 && i < comm.nproc[h]
    ensures Messages(comm, s.trail).pc[h] >= Mark(comm, s.procs[h][i].returned)
  {
    hide Messages, Mark, AreScripts, CounterBarrier.Inv, ProcOk;
    ArrivedOnHost(comm, s, h, i, 0);
    var k, rep := s.procs[h][i].returned, s.procs[h][0];
    MarksGrow(comm, k, rep.returned);
    MarksGrow(comm, k, rep.returned + 1);
  }

  /** A representative in the messages of call k means that all on its host have called more than k times. */
  lemma {:induction false} BegunMeansEntered(comm: Comm, s: State, g: nat, j: nat, k: nat)
    requires ValidComm(comm) && Shaped(comm, s) && g < |comm.nproc| && HostOk(comm, s, g)
    requires |comm.nproc| > 1 && j < comm.nproc[g] && Messages(comm, s.trail).pc[g] > Mark(comm, k)
    ensures Entered(s.procs[g][j]) > k
  {
    hide Messages, Mark, AreScripts, CounterBarrier.Inv, ProcOk;
    ArrivedOnHost(comm, s, g, 0, j);
    var rep := s.procs[g][0];
    MarksGrow(comm, rep.returned, k);
    MarksGrow(comm, rep.returned + 1, k);
  }

  /**
   In every run over any number of calls, a process that has returned k times knows that every
   process of every host has called at least k times.
   */
  lemma {:induction false} BarrierIsSafe(comm: Comm, s: State, sched: seq<(nat, nat)>, h: nat, i: nat, g: nat, j: nat)
    requires ValidComm(comm) && Initial(comm, s)
    requires h < |comm.nproc| && i < comm.nproc[h] && g < |comm.nproc| && j < comm.nproc[g]
    ensures Run(comm, s, sched).procs[h][i].returned <= Entered(Run(comm, s, sched).procs[g][j])
  {
    hide Run, HostOk, Messages, Mark, AreScripts, Unused;
    RunKeepsInv(comm, s, sched);
    var s' := Run(comm, s, sched);
    assert HostOk(comm, s', h) && HostOk(comm, s', g);
    var k := s'.procs[h][i].returned;
    if |comm.nproc| == 1 {
      AloneIsSafe(comm, s', i, j);
    } else if k > 0 {
      ReturnedMeansThrough(comm, s', h, i);
      AtMostAllCalls(comm, s', h, i);
      ThroughMeansAllBegun(comm, s'.trail, k - 1, h, g);
      BegunMeansEntered(comm, s', g, j, k - 1);
    }
  }

  lemma {:induction false} AloneIsSafe(comm: Comm, s: State, i: nat, j: nat)
    requires ValidComm(comm) && Shaped(comm, s) && |comm.nproc| == 1 && HostOk(comm, s, 0)
    requires i < comm.nproc[0] && j < comm.nproc[0]
    ensures s.procs[0][i].returned <= Entered(s.procs[0][j])
  {
    hide Messages, Mark, AreScripts, RepOk, CounterBarrier.Inv;
    ArrivedOnHost(comm, s, 0, i, j);
    assert ProcOk(comm.calls, 1, comm.nproc[0], comm.base[0], s.procs[0][j], s.smp[0].procs[j]);
  }

  lemma {:induction false} AtMostAllCalls(comm: Comm, s: State, h: nat, i: nat)
    requires ValidComm(comm) && Shaped(comm, s) && h < |comm.nproc| && HostOk(comm, s, h) && i < comm.nproc[h]
    ensures s.procs[h][i].returned <= comm.calls
  {
    hide Messages, Mark, AreScripts, RepOk, CounterBarrier.Inv;
    assert ProcOk(comm.calls, |comm.nproc|, comm.nproc[h], comm.base[h], s.procs[h][i], s.smp[h].procs[i]);
  }

  // ---------------------------------------------------------------- nobody waits for ever

  /** Of the processes that are still in a call, one that has arrived at the fewest on-host barriers is released. */
  lemma {:induction false} SpinnerReleased(comm: Comm, s: State, h: nat, p: nat)
    requires ValidComm(comm) && Shaped(comm, s) && h < |comm.nproc| && HostOk(comm, s, h)
    requires comm.nproc[h] > 1 && p < comm.nproc[h] && s.smp[h].procs[p].phase == CounterBarrier.Spinning
    requires s.procs[h][p].returned < comm.calls
    requires forall q :: 0 <= q < comm.nproc[h] && s.procs[h][q].returned < comm.calls ==>
      s.smp[h].procs[p].arrivals <= s.smp[h].procs[q].arrivals
    ensures CounterBarrier.Enabled(s.smp[h], p)
  {
    hide Messages, Mark, AreScripts, RepOk, CounterBarrier.Arrivals;
    var n, np, base, st := |comm.nproc|, comm.nproc[h], comm.base[h], s.smp[h];
    forall q | 0 <= q < np
      ensures st.procs[q].arrivals >= st.procs[p].arrivals
    {
      assert ProcOk(comm.calls, n, np, base, s.procs[h][p], st.procs[p]);
      assert ProcOk(comm.calls, n, np, base, s.procs[h][q], st.procs[q]);
      assert CounterBarrier.ProcInv(st.procs[p], np) && CounterBarrier.ProcInv(st.procs[q], np);
    }
    CounterBarrier.ReleaseMeans(st, p);
  }

  /** On a host that does not wait for its representative's messages somebody can go on. */
  lemma {:induction false} HostMoves(comm: Comm, s: State, h: nat, x: nat) returns (i: nat)
    requires ValidComm(comm) && Shaped(comm, s) && h < |comm.nproc| && HostOk(comm, s, h)
    requires x < comm.nproc[h] && s.procs[h][x].returned < comm.calls
    requires |comm.nproc| == 1 || s.procs[h][0].leg != Between || Through(comm, s.trail, h, s.procs[h][0].returned)
    ensures Enabled(comm, s, h, i, true)
  {
    hide Messages, Mark, AreScripts, CounterBarrier.Inv, Through, HostOk, CanMove;
    var np := comm.nproc[h];
    var open := set q: nat | q < np && s.procs[h][q].returned < comm.calls;
    assert x in open;
    if q :| q in open && Ready(s, h, q) {
      i := q;
      SpinsInside(comm, s, h, q);
    } else {
      var arrivals := seq(np, q requires 0 <= q < np => s.smp[h].procs[q].arrivals);
      i := PickLowest(arrivals, open);
      SpinsInside(comm, s, h, i);
      forall q | 0 <= q < np && s.procs[h][q].returned < comm.calls
        ensures s.smp[h].procs[i].arrivals <= s.smp[h].procs[q].arrivals
      {
        assert q in open && arrivals[i] <= arrivals[q];
      }
      SpinnerReleased(comm, s, h, i);
    }
  }

  /** Not spinning in an on-host barrier. */
  ghost predicate Ready(s: State, h: nat, q: nat)
    requires h < |s.procs| == |s.smp| && q < |s.procs[h]| == |s.smp[h].procs|
  {
    s.procs[h][q].leg == Away || s.procs[h][q].leg == Between || s.smp[h].procs[q].phase != CounterBarrier.Spinning
  }

  /** Only with others on the host is there an on-host barrier to wait in. */
  lemma {:induction false} SpinsInside(comm: Comm, s: State, h: nat, q: nat)
    requires ValidComm(comm) && Shaped(comm, s) && h < |comm.nproc| && HostOk(comm, s, h) && q < comm.nproc[h]
    ensures !Ready(s, h, q) ==> comm.nproc[h] > 1
  {
    hide Messages, Mark, AreScripts, RepOk, CounterBarrier.Inv;
    assert ProcOk(comm.calls, |comm.nproc|, comm.nproc[h], comm.base[h], s.procs[h][q], s.smp[h].procs[q]);
  }

  /** All receives take what they are sent. */
  lemma {:induction false} TakesAll(comm: Comm)
    requires ValidComm(comm)
    ensures Accepting(TheNet(comm), Unaware(|comm.nproc|))
  {
    hide AreScripts, BarrierPlan, Consistent, PhaseNet, Base, ScriptLength, PhaseAccepts, InStep;
    CallsPair(comm);
    var plan := BarrierPlan(comm);
    var t := TheRun(plan, Unaware(plan.n));
    forall i | 0 <= i < |t|
      ensures |t[i]| == plan.n
    {
      TraceShape(TheNet(comm), Unaware(plan.n), t, i);
    }
    forall k | 0 <= k < comm.calls
      ensures Consistent(PhaseOf(plan, k)) && InStep(plan.phases[k], plan.n, plan.len)
      ensures Base(k, plan.len) + plan.len + 1 < |t| && PhaseAccepts(plan, t, k)
    {
      CallTakesAll(comm, t, k);
    }
    AllAccepted(plan, Unaware(plan.n), t);
  }

  lemma {:induction false} CallTakesAll(comm: Comm, t: seq<seq<Knowledge>>, k: nat)
    requires ValidComm(comm) && k < comm.calls && forall r :: 0 <= r < |t| ==> |t[r]| == |comm.nproc|
    requires |t| > Base(comm.calls, Len(comm))
    ensures InStep(BarrierPlan(comm).phases[k], |comm.nproc|, Len(comm)) && Consistent(PhaseOf(BarrierPlan(comm), k))
    ensures Base(k, Len(comm)) + Len(comm) + 1 < |t| && PhaseAccepts(BarrierPlan(comm), t, k)
  {
    hide AreScripts, ScriptLength, Consistent, BarrierPlan;
    BaseMonotone(k + 1, comm.calls, Len(comm));
    CallNet(comm, k);
  }

  /** While one representative is not through all its messages, one can take a step in them. */
  lemma {:induction false} MessagesMove(comm: Comm, trail: seq<nat>, h: nat) returns (p: nat)
    requires ValidComm(comm) && h < |comm.nproc| && Messages(comm, trail).pc[h] < Mark(comm, comm.calls)
    ensures p < |comm.nproc| && Messages(comm, trail).pc[p] < Mark(comm, comm.calls)
    ensures CanMove(TheNet(comm), Messages(comm, trail), p, true)
  {
    hide TheNet, Consistent, Accepting, AreScripts, Exec;
    TakesAll(comm);
    PacksAll(comm);
    ScriptEnds(comm, h);
    p := NeverStuck(TheNet(comm), Unaware(|comm.nproc|), seq(|comm.nproc|, q => 0), trail);
    ScriptEnds(comm, p);
  }

  /** A representative that is not through all its messages has calls to make. */
  lemma {:induction false} RepUnfinished(comm: Comm, s: State, h: nat)
    requires ValidComm(comm) && Shaped(comm, s) && h < |comm.nproc| && HostOk(comm, s, h)
    requires |comm.nproc| > 1 && Messages(comm, s.trail).pc[h] < Mark(comm, comm.calls)
    ensures s.procs[h][0].returned < comm.calls
  {
    hide Messages, Mark, AreScripts, CounterBarrier.Inv;
    assert ProcOk(comm.calls, |comm.nproc|, comm.nproc[h], comm.base[h], s.procs[h][0], s.smp[h].procs[0]);
  }

  /** A representative that waits in its messages is not through all of them. */
  lemma {:induction false} WaitsBeforeTheEnd(comm: Comm, s: State, h: nat)
    requires ValidComm(comm) && Shaped(comm, s) && h < |comm.nproc| && HostOk(comm, s, h)
    requires s.procs[h][0].leg == Between && !Through(comm, s.trail, h, s.procs[h][0].returned)
    ensures Messages(comm, s.trail).pc[h] < Mark(comm, comm.calls)
  {
    hide Messages, Mark, AreScripts, CounterBarrier.Inv;
    assert ProcOk(comm.calls, |comm.nproc|, comm.nproc[h], comm.base[h], s.procs[h][0], s.smp[h].procs[0]);
    MarksGrow(comm, s.procs[h][0].returned + 1, comm.calls);
  }

  /** Until all have returned from all their calls some process can go on, even with synchronous sends. */
  lemma {:induction false} BarrierNeverStuck(comm: Comm, s: State, sched: seq<(nat, nat)>)
    requires ValidComm(comm) && Initial(comm, s)
    ensures var s' := Run(comm, s, sched);
      || (forall h, i {:trigger s'.procs[h][i]} :: 0 <= h < |comm.nproc| && 0 <= i < comm.nproc[h] ==>
            s'.procs[h][i] == Proc(comm.calls, Away))
      || exists h, i :: Enabled(comm, s', h, i, true)
  {
    hide Run, HostOk, Messages, Mark, AreScripts, Unused, Enabled, Through;
    RunKeepsInv(comm, s, sched);
    var s' := Run(comm, s, sched);
    if h, i :| 0 <= h < |comm.nproc| && 0 <= i < comm.nproc[h] && s'.procs[h][i].returned < comm.calls {
      assert HostOk(comm, s', h);
      SomebodyMoves(comm, s', h, i);
    } else {
      forall h, i | 0 <= h < |comm.nproc| && 0 <= i < comm.nproc[h]
        ensures s'.procs[h][i] == Proc(comm.calls, Away)
      {
        assert HostOk(comm, s', h);
        AllReturned(comm, s', h, i);
      }
    }
  }

  lemma {:induction false} AllReturned(comm: Comm, s: State, h: nat, i: nat)
    requires ValidComm(comm) && Shaped(comm, s) && h < |comm.nproc| && HostOk(comm, s, h) && i < comm.nproc[h]
    requires s.procs[h][i].returned >= comm.calls
    ensures s.procs[h][i] == Proc(comm.calls, Away)
  {
    hide Messages, Mark, AreScripts, RepOk, CounterBarrier.Inv;
    assert ProcOk(comm.calls, |comm.nproc|, comm.nproc[h], comm.base[h], s.procs[h][i], s.smp[h].procs[i]);
  }

  lemma {:induction false} SomebodyMoves(comm: Comm, s: State, h: nat, i: nat)
    requires ValidComm(comm) && Inv(comm, s)
    requires h < |comm.nproc| && i < comm.nproc[h] && s.procs[h][i].returned < comm.calls
    ensures exists g, j :: Enabled(comm, s, g, j, true)
  {
    hide HostOk, Messages, Mark, AreScripts, Enabled, Through;
    assert HostOk(comm, s, h);
    if |comm.nproc| == 1 || s.procs[h][0].leg != Between || Through(comm, s.trail, h, s.procs[h][0].returned) {
      var j := HostMoves(comm, s, h, i);
    } else {
      WaitsBeforeTheEnd(comm, s, h);
      var p := MessagesMove(comm, s.trail, h);
      RepresentativeMoves(comm, s, p);
    }
  }

  /** Where the representative can take a step in its messages, somebody on its host can go on. */
  lemma {:induction false} RepresentativeMoves(comm: Comm, s: State, p: nat)
    requires ValidComm(comm) && Inv(comm, s) && |comm.nproc| > 1 && p < |comm.nproc|
    requires Messages(comm, s.trail).pc[p] < Mark(comm, comm.calls)
    requires CanMove(TheNet(comm), Messages(comm, s.trail), p, true)
    ensures exists g, j :: Enabled(comm, s, g, j, true)
  {
    hide HostOk, Messages, Mark, AreScripts, Through, CanMove;
    assert HostOk(comm, s, p);
    RepUnfinished(comm, s, p);
    if s.procs[p][0].leg == Between {
      assert Enabled(comm, s, p, 0, true);
    } else {
      var j := HostMoves(comm, s, p, 0);
    }
  }
}
