/**
 Collectives that go over their data in phases, one for each stripe or block.  In a phase
 every host takes a step of its own, the hosts exchange messages, and every host takes a
 second step of its own.  Nothing keeps the hosts together: one may be phases ahead of
 another, and the messages of different phases share the channels.

 A host's own step is a message of the host to itself, so that all of it is one network.
 */
module Phases {
  import opened Network
  import opened Buffers
  import opened Posted

  datatype Deed<+A> = Own(host: nat, phase: nat, stage: nat) | Msg(how: A)

  /** A host: what messages are sent from and received into, and what else it has. */
  datatype Host<+S, +X> = Host(shared: S, own: X)

  /** All shared buffers have room for so many bytes. */
  ghost predicate HasRoom<T, X>(hosts: seq<Host<seq<T>, X>>, room: nat) {
    forall h :: 0 <= h < |hosts| ==> |hosts[h].shared| >= room
  }

  /**
   The phases of a collective: `phases[k][h]` is what host h exchanges in phase k, in `inner`'s
   terms; `step(h, k, stage, st)` is what its own step before (0) or after (1) the messages of
   phase k makes of its state.
   */
  datatype Plan<!A, !S, !X, !M> = Plan(inner: Net<A, S, M>, phases: seq<seq<seq<Round<A>>>>, n: nat, len: nat,
                                       step: (nat, nat, nat, Host<S, X>) -> Host<S, X>)

  function OwnRound<A>(h: nat, k: nat, stage: nat): Round<Deed<A>> {
    Round(Some(Half(h, Own(h, k, stage))), Some(Half(h, Own(h, k, stage))))
  }

  function LiftHalf<A>(half: Option<Half<A>>): Option<Half<Deed<A>>> {
    match half
    case None => None
    case Some(Half(q, how)) => Some(Half(q, Msg(how)))
  }

  function Lift<A>(script: seq<Round<A>>): (lifted: seq<Round<Deed<A>>>)
    ensures |lifted| == |script|
    ensures forall r :: 0 <= r < |script| ==> lifted[r] == Round(LiftHalf(script[r].out), LiftHalf(script[r].inc))
  {
    seq(|script|, r requires 0 <= r < |script| => Round(LiftHalf(script[r].out), LiftHalf(script[r].inc)))
  }

  function Block<A>(script: seq<Round<A>>, h: nat, k: nat): (b: seq<Round<Deed<A>>>)
    ensures |b| == |script| + 2
  {
    [OwnRound(h, k, 0)] + Lift(script) + [OwnRound(h, k, 1)]
  }

  /** In phase k host h exchanges messages by `phases[k][h]`; all these scripts are `len` long. */
  ghost predicate Phased<A>(phases: seq<seq<seq<Round<A>>>>, n: nat, len: nat) {
    forall k :: 0 <= k < |phases| ==> InStep(phases[k], n, len)
  }

  ghost predicate InStep<A>(scripts: seq<seq<Round<A>>>, n: nat, len: nat) {
    |scripts| == n && forall h :: 0 <= h < n ==> |scripts[h]| == len
  }

  /** The first k phases of host h. */
  ghost function ScriptUpto<A>(phases: seq<seq<seq<Round<A>>>>, n: nat, len: nat, h: nat, k: nat): seq<Round<Deed<A>>>
    requires Phased(phases, n, len) && h < n && k <= |phases|
  {
    if k == 0 then []
    else
      assert InStep(phases[k - 1], n, len);
      ScriptUpto(phases, n, len, h, k - 1) + Block(phases[k - 1][h], h, k - 1)
  }

  /** The round in which phase k begins. */
  function Base(k: nat, len: nat): nat { if k == 0 then 0 else Base(k - 1, len) + len + 2 }

  lemma {:induction false} BaseMonotone(k: nat, k': nat, len: nat)
    requires k <= k'
    ensures Base(k, len) <= Base(k', len) && (k < k' ==> Base(k, len) + len + 2 <= Base(k', len))
    decreases k'
  {
    if k < k' {
      BaseMonotone(k, k' - 1, len);
    }
  }

  lemma {:induction false} Locate(r: nat, phases: nat, len: nat) returns (k: nat, j: nat)
    requires r < Base(phases, len)
    ensures k < phases && j < len + 2 && r == Base(k, len) + j
    decreases phases
  {
    if r < Base(phases - 1, len) {
      k, j := Locate(r, phases - 1, len);
    } else {
      k, j := phases - 1, r - Base(phases - 1, len);
    }
  }

  lemma {:induction false} RoundInPhase<A>(phases: seq<seq<seq<Round<A>>>>, n: nat, len: nat, h: nat, upto: nat, k: nat,
                                           j: nat)
    requires Phased(phases, n, len) && h < n && upto <= |phases|
    ensures |ScriptUpto(phases, n, len, h, upto)| == Base(upto, len)
    ensures k < upto && j < len + 2 ==>
      && Base(k, len) + j < Base(upto, len) && InStep(phases[k], n, len)
      && ScriptUpto(phases, n, len, h, upto)[Base(k, len) + j] == Block(phases[k][h], h, k)[j]
    decreases upto
  {
    hide Block;
    if upto > 0 {
      assert InStep(phases[upto - 1], n, len);
      RoundInPhase(phases, n, len, h, upto - 1, k, j);
      if k < upto {
        BaseMonotone(k, upto, len);
      }
    }
  }

  // ---------------------------------------------------------------- the network

  function PackDeed<A, S, X, M>(pack: (A, S) -> M, how: Deed<A>, st: Host<S, X>): Option<M> {
    match how
    case Own(_, _, _) => None
    case Msg(a) => Some(pack(a, st.shared))
  }

  function UnpackDeed<A, S, X, M>(unpack: (A, S, M) -> S, step: (nat, nat, nat, Host<S, X>) -> Host<S, X>, how: Deed<A>,
                                  st: Host<S, X>, m: Option<M>): Host<S, X>
  {
    match how
    case Own(h, k, stage) => step(h, k, stage, st)
    case Msg(a) => if m.Some? then Host(unpack(a, st.shared, m.value), st.own) else st
  }

  ghost predicate IsPlan<A, S, X, M>(plan: Plan<A, S, X, M>) { Phased(plan.phases, plan.n, plan.len) }

  ghost function PhaseNet<A, S, X, M>(plan: Plan<A, S, X, M>): (net: Net<Deed<A>, Host<S, X>, Option<M>>)
    requires IsPlan(plan)
    ensures |net.scripts| == plan.n
  {
    Net(seq(plan.n, h requires 0 <= h < plan.n => ScriptUpto(plan.phases, plan.n, plan.len, h, |plan.phases|)), false,
        (how: Deed<A>, st: Host<S, X>) => PackDeed(plan.inner.pack, how, st),
        (how: Deed<A>, st: Host<S, X>, m: Option<M>) => UnpackDeed(plan.inner.unpack, plan.step, how, st, m),
        (how: Deed<A>, m: Option<M>) => how.Msg? ==> m.Some? && plan.inner.fits(how.how, m.value))
  }

  /** The messages of one phase, on their own. */
  ghost function PhaseOf<A, S, X, M>(plan: Plan<A, S, X, M>, k: nat): Net<A, S, M>
    requires k < |plan.phases|
  {
    plan.inner.(scripts := plan.phases[k])
  }

  /** What host h does in round j of phase k. */
  lemma {:induction false} DeedAt<A, S, X, M>(plan: Plan<A, S, X, M>, h: nat, k: nat, j: nat)
    requires IsPlan(plan) && h < plan.n && k < |plan.phases| && j < plan.len + 2
    ensures InStep(plan.phases[k], plan.n, plan.len)
    ensures var net, inner', r := PhaseNet(plan), PhaseOf(plan, k), Base(k, plan.len) + j;
      && |net.scripts[h]| == Base(|plan.phases|, plan.len) && r < |net.scripts[h]|
      && (1 <= j <= plan.len ==>
            OutAt(net, h, r) == LiftHalf(OutAt(inner', h, j - 1)) &&
            InAt(net, h, r) == LiftHalf(InAt(inner', h, j - 1)))
      && (!(1 <= j <= plan.len) ==>
            OutAt(net, h, r) == InAt(net, h, r) == Some(Half(h, Own(h, k, if j == 0 then 0 else 1))))
  {
    hide Base, LiftHalf;
    RoundInPhase(plan.phases, plan.n, plan.len, h, |plan.phases|, k, j);
  }

  lemma {:induction false} NoDeeds<A, S, X, M>(plan: Plan<A, S, X, M>, h: nat, r: nat)
    requires IsPlan(plan) && h < plan.n && r >= Base(|plan.phases|, plan.len)
    ensures var net := PhaseNet(plan);
      |net.scripts[h]| == Base(|plan.phases|, plan.len) && OutAt(net, h, r).None? && InAt(net, h, r).None?
  {
    hide Base;
    RoundInPhase(plan.phases, plan.n, plan.len, h, |plan.phases|, 0, 0);
  }

  ghost predicate AllConsistent<A, S, X, M>(plan: Plan<A, S, X, M>) {
    forall k :: 0 <= k < |plan.phases| ==> Consistent(PhaseOf(plan, k))
  }

  lemma {:induction false} DeedsPairAt<A, S, X, M>(plan: Plan<A, S, X, M>, h: nat, r: nat)
    requires IsPlan(plan) && AllConsistent(plan) && h < plan.n
    ensures var net := PhaseNet(plan);
      && (OutAt(net, h, r).Some? ==> SendMatched(net, h, r))
      && (InAt(net, h, r).Some? ==> ReceiveMatched(net, h, r))
  {
    hide Base, PhaseNet, RoundAt;
    if r < Base(|plan.phases|, plan.len) {
      var k, j := Locate(r, |plan.phases|, plan.len);
      DeedAt(plan, h, k, j);
      if 1 <= j <= plan.len {
        var inner' := PhaseOf(plan, k);
        assert Consistent(inner');
        if OutAt(inner', h, j - 1).Some? {
          assert SendMatched(inner', h, j - 1);
          DeedAt(plan, OutAt(inner', h, j - 1).value.peer, k, j);
        }
        if InAt(inner', h, j - 1).Some? {
          assert ReceiveMatched(inner', h, j - 1);
          DeedAt(plan, InAt(inner', h, j - 1).value.peer, k, j);
        }
      }
    } else {
      NoDeeds(plan, h, r);
    }
  }

  /** If the messages of every phase pair up, all of it does. */
  lemma {:induction false} PhasesPair<A, S, X, M>(plan: Plan<A, S, X, M>)
    requires IsPlan(plan) && AllConsistent(plan)
    ensures Consistent(PhaseNet(plan))
  {
    hide PhaseNet, RoundAt, SendMatched, ReceiveMatched;
    var net := PhaseNet(plan);
    forall h, r: nat | 0 <= h < plan.n
      ensures OutAt(net, h, r).Some? ==> SendMatched(net, h, r)
      ensures InAt(net, h, r).Some? ==> ReceiveMatched(net, h, r)
    {
      DeedsPairAt(plan, h, r);
    }
  }

  // ---------------------------------------------------------------- one phase of a round-by-round run

  /** What the messages of phase k do to the shared part, in the run `t`. */
  ghost function Slice<A, S, X, M>(plan: Plan<A, S, X, M>, t: seq<seq<Host<S, X>>>, k: nat): (u: seq<seq<S>>)
    requires k < |plan.phases| && Base(k, plan.len) + plan.len + 1 < |t|
    requires forall r :: 0 <= r < |t| ==> |t[r]| == plan.n
    ensures |u| == plan.len + 1
    ensures forall j :: 0 <= j <= plan.len ==> u[j] == SharedAt(t, Base(k, plan.len) + 1 + j, plan.n)
    ensures forall j :: 0 <= j <= plan.len ==> |u[j]| == plan.n
    ensures forall j, h {:trigger u[j][h]} :: 0 <= j <= plan.len && 0 <= h < plan.n ==>
      u[j][h] == t[Base(k, plan.len) + 1 + j][h].shared
  {
    seq(plan.len + 1, j requires 0 <= j <= plan.len => SharedAt(t, Base(k, plan.len) + 1 + j, plan.n))
  }

  ghost function SharedAt<S, X>(t: seq<seq<Host<S, X>>>, r: nat, n: nat): (shared: seq<S>)
    requires r < |t| && forall i :: 0 <= i < |t| ==> |t[i]| == n
    ensures |shared| == n && forall h :: 0 <= h < n ==> shared[h] == t[r][h].shared
  {
    seq(n, h requires 0 <= h < n => t[r][h].shared)
  }

  ghost predicate RunOf<A, S, X, M>(plan: Plan<A, S, X, M>, init: seq<Host<S, X>>, t: seq<seq<Host<S, X>>>)
    requires IsPlan(plan)
  {
    && |init| == plan.n && Consistent(PhaseNet(plan)) && IsTrace(PhaseNet(plan), init, t)
    && |t| == Base(|plan.phases|, plan.len) + 1
  }

  /** The host's own steps. */
  lemma {:induction false} OwnSteps<A, S, X, M>(plan: Plan<A, S, X, M>, init: seq<Host<S, X>>, t: seq<seq<Host<S, X>>>,
                                                k: nat, h: nat)
    requires IsPlan(plan) && RunOf(plan, init, t) && k < |plan.phases| && h < plan.n
    requires Base(k, plan.len) + plan.len + 2 < |t| && forall r :: 0 <= r < |t| ==> |t[r]| == plan.n
    ensures var b, end := Base(k, plan.len), Base(k, plan.len) + plan.len + 1;
      t[b + 1][h] == plan.step(h, k, 0, t[b][h]) && t[end + 1][h] == plan.step(h, k, 1, t[end][h])
  {
    hide Base, IsTrace, Consistent;
    var b := Base(k, plan.len);
    DeedAt(plan, h, k, 0);
    TraceNext(PhaseNet(plan), init, t, b, h);
    DeedAt(plan, h, k, plan.len + 1);
    TraceNext(PhaseNet(plan), init, t, b + plan.len + 1, h);
  }

  /** One round of messages, on the shared part. */
  lemma {:induction false} SharedStep<A, S, X, M>(plan: Plan<A, S, X, M>, init: seq<Host<S, X>>,
                                                  t: seq<seq<Host<S, X>>>, k: nat, j: nat, h: nat)
    requires IsPlan(plan) && RunOf(plan, init, t) && k < |plan.phases| && j < plan.len && h < plan.n
    requires Base(k, plan.len) + plan.len + 2 < |t| && forall r :: 0 <= r < |t| ==> |t[r]| == plan.n
    requires Consistent(PhaseOf(plan, k)) && |PhaseOf(plan, k).scripts| == plan.n
    ensures var u := Slice(plan, t, k);
      u[j + 1][h] == Next(PhaseOf(plan, k), u[j], j, h) &&
      t[Base(k, plan.len) + 2 + j][h].own == t[Base(k, plan.len) + 1 + j][h].own
  {
    hide Base, IsTrace, Consistent, Slice, SendMatched;
    var b, inner' := Base(k, plan.len), PhaseOf(plan, k);
    DeedAt(plan, h, k, j + 1);
    TraceNext(PhaseNet(plan), init, t, b + 1 + j, h);
    var u := Slice(plan, t, k);
    assert u[j + 1][h] == t[b + 1 + (j + 1)][h].shared && u[j][h] == t[b + 1 + j][h].shared;
    if InAt(inner', h, j).Some? {
      var q := InAt(inner', h, j).value.peer;
      Paired(inner', h, j);
      DeedAt(plan, q, k, j + 1);
      assert u[j][q] == t[b + 1 + j][q].shared;
    }
  }

  lemma {:induction false} Paired<A, S, M>(net: Net<A, S, M>, p: nat, r: nat)
    requires Consistent(net) && p < |net.scripts| && InAt(net, p, r).Some?
    ensures ReceiveMatched(net, p, r)
  {
  }

  /** The messages of a phase are a round-by-round run of that phase alone; the rest of the host stays. */
  lemma {:induction false} SliceIsTrace<A, S, X, M>(plan: Plan<A, S, X, M>, init: seq<Host<S, X>>,
                                                    t: seq<seq<Host<S, X>>>, k: nat)
    requires IsPlan(plan) && AllConsistent(plan) && RunOf(plan, init, t) && k < |plan.phases|
    requires Base(k, plan.len) + plan.len + 2 < |t| && forall r :: 0 <= r < |t| ==> |t[r]| == plan.n
    ensures Consistent(PhaseOf(plan, k)) && InStep(plan.phases[k], plan.n, plan.len)
    ensures IsTrace(PhaseOf(plan, k), Slice(plan, t, k)[0], Slice(plan, t, k))
  {
    hide Base, Consistent, Slice, RunOf, Next;
    assert InStep(plan.phases[k], plan.n, plan.len) && Consistent(PhaseOf(plan, k));
    var u, inner' := Slice(plan, t, k), PhaseOf(plan, k);
    forall j | 0 <= j < |u| - 1
      ensures StepAt(inner', u, j)
    {
      forall h | 0 <= h < plan.n
        ensures u[j + 1][h] == Next(inner', u[j], j, h)
      {
        SharedStep(plan, init, t, k, j, h);
      }
    }
  }

  lemma {:induction false} OwnStays<A, S, X, M>(plan: Plan<A, S, X, M>, init: seq<Host<S, X>>, t: seq<seq<Host<S, X>>>,
                                                k: nat, j: nat, h: nat)
    requires IsPlan(plan) && AllConsistent(plan) && RunOf(plan, init, t)
    requires k < |plan.phases| && j <= plan.len && h < plan.n
    requires Base(k, plan.len) + plan.len + 2 < |t| && forall r :: 0 <= r < |t| ==> |t[r]| == plan.n
    ensures t[Base(k, plan.len) + 1 + j][h].own == t[Base(k, plan.len) + 1][h].own
    decreases j
  {
    hide Base, Consistent, Slice, RunOf, Next;
    if j > 0 {
      OwnStays(plan, init, t, k, j - 1, h);
      assert InStep(plan.phases[k], plan.n, plan.len) && Consistent(PhaseOf(plan, k));
      SharedStep(plan, init, t, k, j - 1, h);
    }
  }

  // ---------------------------------------------------------------- all phases

  /** In phase k every posted receive accepts the message that belongs to it. */
  ghost predicate PhaseAccepts<A, S, X, M>(plan: Plan<A, S, X, M>, t: seq<seq<Host<S, X>>>, k: nat)
    requires IsPlan(plan) && k < |plan.phases| && Consistent(PhaseOf(plan, k))
    requires InStep(plan.phases[k], plan.n, plan.len)
    requires Base(k, plan.len) + plan.len + 1 < |t| && forall r :: 0 <= r < |t| ==> |t[r]| == plan.n
  {
    forall h, j: nat {:trigger AcceptsIn(PhaseOf(plan, k), Slice(plan, t, k), h, j)} ::
      0 <= h < plan.n && j < plan.len && InAt(PhaseOf(plan, k), h, j).Some? ==>
        AcceptsIn(PhaseOf(plan, k), Slice(plan, t, k), h, j)
  }

  lemma {:induction false} AcceptAt<A, S, X, M>(plan: Plan<A, S, X, M>, t: seq<seq<Host<S, X>>>, k: nat, j: nat, h: nat)
    requires IsPlan(plan) && k < |plan.phases| && Consistent(PhaseOf(plan, k))
    requires InStep(plan.phases[k], plan.n, plan.len)
    requires Base(k, plan.len) + plan.len + 1 < |t| && forall r :: 0 <= r < |t| ==> |t[r]| == plan.n
    requires Consistent(PhaseNet(plan)) && PhaseAccepts(plan, t, k) && j < plan.len + 2 && h < plan.n
    ensures var net, r := PhaseNet(plan), Base(k, plan.len) + j; InAt(net, h, r).Some? ==> AcceptsIn(net, t, h, r)
  {
    hide Base, Consistent, Slice;
    var net, r, inner' := PhaseNet(plan), Base(k, plan.len) + j, PhaseOf(plan, k);
    DeedAt(plan, h, k, j);
    if InAt(net, h, r).Some? {
      Paired(net, h, r);
      DeedAt(plan, InAt(net, h, r).value.peer, k, j);
      if 1 <= j <= plan.len {
        assert AcceptsIn(inner', Slice(plan, t, k), h, j - 1);
        Paired(inner', h, j - 1);
        var q := InAt(inner', h, j - 1).value.peer;
        assert Slice(plan, t, k)[j - 1][q] == t[Base(k, plan.len) + 1 + (j - 1)][q].shared;
      }
    }
  }

  lemma {:induction false} TheRun<A, S, X, M>(plan: Plan<A, S, X, M>, init: seq<Host<S, X>>)
    returns (t: seq<seq<Host<S, X>>>)
    requires IsPlan(plan) && AllConsistent(plan) && |init| == plan.n >= 1
    ensures Consistent(PhaseNet(plan)) && t == Trace(PhaseNet(plan), init) && RunOf(plan, init, t)
    ensures MaxLength(PhaseNet(plan).scripts) == Base(|plan.phases|, plan.len)
  {
    hide Base, Consistent, IsTrace, PhaseNet;
    PhasesPair(plan);
    var net := PhaseNet(plan);
    t := Trace(net, init);
    forall h | 0 <= h < plan.n
      ensures |net.scripts[h]| == Base(|plan.phases|, plan.len)
    {
      NoDeeds(plan, h, Base(|plan.phases|, plan.len));
    }
    ScriptLengths(net.scripts, Base(|plan.phases|, plan.len));
  }

  lemma {:induction false} AllAccepted<A, S, X, M>(plan: Plan<A, S, X, M>, init: seq<Host<S, X>>,
                                                   t: seq<seq<Host<S, X>>>)
    requires IsPlan(plan) && AllConsistent(plan) && |init| == plan.n >= 1 && RunOf(plan, init, t)
    requires t == Trace(PhaseNet(plan), init) && MaxLength(PhaseNet(plan).scripts) == Base(|plan.phases|, plan.len)
    requires forall k :: 0 <= k < |plan.phases| ==>
      && Consistent(PhaseOf(plan, k)) && InStep(plan.phases[k], plan.n, plan.len)
      && Base(k, plan.len) + plan.len + 1 < |t| && (forall r :: 0 <= r < |t| ==> |t[r]| == plan.n)
      && PhaseAccepts(plan, t, k)
    ensures Accepting(PhaseNet(plan), init)
  {
    hide Base, Consistent, IsTrace, PhaseNet, PhaseAccepts, AcceptsIn;
    var net := PhaseNet(plan);
    forall p, r: nat | 0 <= p < plan.n && r < MaxLength(net.scripts) && InAt(net, p, r).Some?
      ensures AcceptsIn(net, t, p, r)
    {
      var k, j := Locate(r, |plan.phases|, plan.len);
      AcceptAt(plan, t, k, j, p);
    }
    AcceptingFromTrace(net, init);
  }

  /**
   Whatever the schedule, and however far the hosts get apart: when all that the hosts post is
   performed, every host is where the round-by-round run ends; until then some host can go on.
   */
  lemma {:induction false} PhasesRun<A, S, X, M>(plan: Plan<A, S, X, M>, init: seq<Host<S, X>>, posted: seq<nat>)
    requires IsPlan(plan) && Consistent(PhaseNet(plan)) && |init| == plan.n >= 1 && Accepting(PhaseNet(plan), init)
    ensures Addressed(PostedBy(PhaseNet(plan).scripts))
    ensures var net := PhaseNet(plan);
      var ops := PostedBy(net.scripts);
      var d := Perform(net, ops, Start(net, init), posted);
      if AllPerformed(ops, d) then d.local == Trace(net, init)[MaxLength(net.scripts)]
      else exists p :: CanAct(net, ops, d, p, true)
  {
    hide Consistent, IsPlan, Addressed, AllPerformed, CanAct, Perform, Accepting;
    PostedRunsAgree(PhaseNet(plan), init, seq(plan.n, i => 0), posted);
  }

  // ---------------------------------------------------------------- what a host posts

  lemma {:induction false} ActiveConcat<A>(a: seq<Round<A>>, b: seq<Round<A>>)
    ensures Active(a + b) == Active(a) + Active(b)
    decreases |b|
  {
    if b == [] {
      assert a + b == a;
    } else {
      assert (a + b)[..|a + b| - 1] == a + b[..|b| - 1];
      ActiveConcat(a, b[..|b| - 1]);
    }
  }

  lemma {:induction false} ActiveLift<A>(script: seq<Round<A>>)
    ensures Active(Lift(script)) == Lift(Active(script))
    decreases |script|
  {
    if script != [] {
      var front, last := script[..|script| - 1], script[|script| - 1];
      ActiveLift(front);
      assert Lift(script)[..|script| - 1] == Lift(front);
    }
  }

  /** In a phase a host posts its own steps around what it exchanges. */
  lemma {:induction false} ActiveBlock<A>(script: seq<Round<A>>, h: nat, k: nat)
    ensures Active(Block(script, h, k)) == [OwnRound(h, k, 0)] + Lift(Active(script)) + [OwnRound(h, k, 1)]
  {
    hide Lift, Active;
    var first, last: seq<Round<Deed<A>>> := [OwnRound(h, k, 0)], [OwnRound(h, k, 1)];
    ActiveConcat(first + Lift(script), last);
    ActiveConcat(first, Lift(script));
    ActiveLift(script);
    ActiveOwn<A>(h, k, 0);
    ActiveOwn<A>(h, k, 1);
  }

  lemma {:induction false} ActiveOwn<A>(h: nat, k: nat, stage: nat)
    ensures Active<Deed<A>>([OwnRound(h, k, stage)]) == [OwnRound(h, k, stage)]
  {
    assert Active<Deed<A>>([]) == [];
  }

  lemma {:induction false} PostedFirst<A>(phases: seq<seq<seq<Round<A>>>>, n: nat, len: nat, h: nat)
    requires Phased(phases, n, len) && h < n
    ensures Active(ScriptUpto(phases, n, len, h, 0)) == []
  {
  }

  /** What host h posts in its first k phases. */
  lemma {:induction false} PostedPhase<A>(phases: seq<seq<seq<Round<A>>>>, n: nat, len: nat, h: nat, k: nat)
    requires Phased(phases, n, len) && h < n && k < |phases|
    ensures InStep(phases[k], n, len)
    ensures Active(ScriptUpto(phases, n, len, h, k + 1)) ==
      Active(ScriptUpto(phases, n, len, h, k)) + [OwnRound(h, k, 0)] + Lift(Active(phases[k][h])) + [OwnRound(h, k, 1)]
  {
    hide Lift, Active, Block;
    assert InStep(phases[k], n, len);
    ActiveConcat(ScriptUpto(phases, n, len, h, k), Block(phases[k][h], h, k));
    ActiveBlock(phases[k][h], h, k);
  }
}
