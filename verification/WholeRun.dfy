/**
 All processes of all hosts and their messages together.  The processes of every host go
 through their stripe loop, and the exchange of a stripe is the messages that
 the plan of the collective has for it, one action at a time; there is no point at which the
 hosts, or the processes of a host, stand still.

 Every such run ends with what the round-by-round run of the plan ends with, in which a host's
 processes write, exchange and read as one.
 */
module WholeRun {
  import opened Network
  import opened Phases
  import HostLoop

  /**
   A collective: its messages, how many processes the hosts have, and their loops; what the write
   of process p of host h in stripe k makes of the shared buffer, and what its read makes of its
   own memory.  `view(h, p, own)` is the memory of that process in the plan.
   */
  datatype Collective<!A, !S, !Y, !M, !X> = Collective(
    plan: Plan<A, S, Y, M>,
    init: seq<Host<S, Y>>,
    nproc: seq<nat>,
    loops: seq<HostLoop.Loop>,
    write: (nat, nat, nat, S) -> S,
    read: (nat, nat, nat, S, X) -> X,
    view: (nat, nat, Y) -> X)

  /** The messages alone: the hosts' own steps do nothing. */
  ghost function Passive<A, S, Y, M>(plan: Plan<A, S, Y, M>): (passive: Plan<A, S, Y, M>) {
    plan.(step := (h: nat, k: nat, stage: nat, st: Host<S, Y>) => st)
  }

  ghost predicate Sized<A, S, Y, M, X>(w: Collective<A, S, Y, M, X>) {
    && IsPlan(w.plan) && AllConsistent(w.plan) && |w.init| == |w.nproc| == |w.loops| == w.plan.n >= 1
    && forall h {:trigger w.nproc[h]} :: 0 <= h < w.plan.n ==>
         && w.nproc[h] > 0 && HostLoop.ValidLoop(w.loops[h], w.nproc[h])
         && HostLoop.StripesOf(w.loops[h]) == |w.plan.phases|
  }

  ghost function StripeCount<A, S, Y, M, X>(w: Collective<A, S, Y, M, X>): nat { |w.plan.phases| }

  /** The network of the plan. */
  ghost function Planned<A, S, Y, M, X>(w: Collective<A, S, Y, M, X>): (net: Net<Deed<A>, Host<S, Y>, Option<M>>)
    requires Sized(w)
    ensures Consistent(net) && |net.scripts| == w.plan.n
  {
    PhasesPair(w.plan);
    PhaseNet(w.plan)
  }

  /** The network that really runs. */
  ghost function Real<A, S, Y, M, X>(w: Collective<A, S, Y, M, X>): (net: Net<Deed<A>, Host<S, Y>, Option<M>>)
    requires Sized(w)
    ensures Consistent(net) && |net.scripts| == w.plan.n
  {
    PassivePairs(w);
    PhaseNet(Passive(w.plan))
  }

  lemma {:induction false} PassivePairs<A, S, Y, M, X>(w: Collective<A, S, Y, M, X>)
    requires Sized(w)
    ensures IsPlan(Passive(w.plan)) && Consistent(PhaseNet(Passive(w.plan)))
  {
    hide Consistent, PhaseNet;
    forall k | 0 <= k < |w.plan.phases|
      ensures Consistent(PhaseOf(Passive(w.plan), k))
    {
      assert Consistent(PhaseOf(w.plan, k)) && PhaseOf(Passive(w.plan), k) == PhaseOf(w.plan, k);
    }
    PhasesPair(Passive(w.plan));
  }

  /** The round-by-round run of the plan. */
  ghost function ByRounds<A, S, Y, M, X>(w: Collective<A, S, Y, M, X>, r: nat): (hosts: seq<Host<S, Y>>)
    requires Sized(w)
    ensures |hosts| == w.plan.n
  {
    Sync(Planned(w), w.init, r)
  }

  /** The plan after the actions of the hosts in `trail`. */
  ghost function PlanAfter<A, S, Y, M, X>(w: Collective<A, S, Y, M, X>,
                                          trail: seq<nat>): (d: Config<Host<S, Y>, Option<M>>)
    requires Sized(w)
    ensures WellFormed(Planned(w), d)
  {
    Exec(Planned(w), Start(Planned(w), w.init), trail)
  }

  /** The buffer after the processes in `order` have written stripe k. */
  ghost function Written<A, S, Y, M, X>(w: Collective<A, S, Y, M, X>, h: nat, k: nat, order: seq<nat>, buf: S): S {
    if order == [] then buf
    else w.write(h, k, order[|order| - 1], Written(w, h, k, order[..|order| - 1], buf))
  }

  /** In the plan, the first own step of stripe k is that all who have to write do, in whatever order. */
  ghost predicate WritesFit<A, S, Y, M, X>(w: Collective<A, S, Y, M, X>, h: nat, k: nat)
    requires Sized(w) && h < w.plan.n
  {
    var b := Base(k, w.plan.len);
    forall order :: HostLoop.Complete(w.loops[h], w.nproc[h], order) ==>
      ByRounds(w, b + 1)[h].shared == Written(w, h, k, order, ByRounds(w, b)[h].shared)
  }

  /** The second is that all processes read, each for itself. */
  ghost predicate ReadsFit<A, S, Y, M, X>(w: Collective<A, S, Y, M, X>, h: nat, k: nat)
    requires Sized(w) && h < w.plan.n
  {
    var b, next := Base(k, w.plan.len), Base(k, w.plan.len) + w.plan.len + 2;
    && ByRounds(w, next)[h].shared == ByRounds(w, next - 1)[h].shared
    && forall p :: 0 <= p < w.nproc[h] ==>
         w.view(h, p, ByRounds(w, next)[h].own) ==
         w.read(h, k, p, ByRounds(w, next)[h].shared, w.view(h, p, ByRounds(w, b)[h].own))
  }

  ghost predicate StripeFits<A, S, Y, M, X>(w: Collective<A, S, Y, M, X>, h: nat, k: nat)
    requires Sized(w) && h < w.plan.n
  {
    WritesFit(w, h, k) && ReadsFit(w, h, k)
  }

  ghost predicate Valid<A, S, Y, M, X>(w: Collective<A, S, Y, M, X>) {
    && Sized(w) && Accepting(Planned(w), w.init)
    && forall h, k {:trigger StripeFits(w, h, k)} :: 0 <= h < w.plan.n && 0 <= k < StripeCount(w) ==>
         StripeFits(w, h, k)
  }

  // ---------------------------------------------------------------- the machine

  /** Where the processes of the hosts are, the hosts' buffers and messages, and the processes' memories. */
  datatype State<S, Y, M, X> = State(at: seq<HostLoop.State>, net: Config<Host<S, Y>, Option<M>>, mem: seq<seq<X>>)

  ghost predicate Shaped<A, S, Y, M, X>(w: Collective<A, S, Y, M, X>, s: State<S, Y, M, X>)
    requires Sized(w)
  {
    && |s.at| == |s.mem| == w.plan.n && WellFormed(Real(w), s.net)
    && forall h :: 0 <= h < w.plan.n ==> HostLoop.Shaped(w.loops[h], s.at[h], w.nproc[h]) && |s.mem[h]| == w.nproc[h]
  }

  /** Where host h is in its messages after k stripes. */
  ghost function Mark<A, S, Y, M, X>(w: Collective<A, S, Y, M, X>, k: nat): nat { 3 * Base(k, w.plan.len) }

  /** Can process p of host h take a step?  With `rendezvous`, sends wait for receives. */
  ghost predicate Enabled<A, S, Y, M, X>(w: Collective<A, S, Y, M, X>, s: State<S, Y, M, X>, h: nat, p: nat,
                                         rendezvous: bool)
    requires Sized(w) && Shaped(w, s)
  {
    h < w.plan.n && p < w.nproc[h] && HostLoop.Enabled(w.loops[h], s.at[h], w.nproc[h], p) &&
    (HostLoop.KindOf(w.loops[h], s.at[h], w.nproc[h], p) == HostLoop.Exchanges ==>
       s.net.pc[h] == Mark(w, HostLoop.StripeAt(s.at[h], p) + 1) || CanMove(Real(w), s.net, h, rendezvous))
  }

  ghost function Step<A, S, Y, M, X>(w: Collective<A, S, Y, M, X>, s: State<S, Y, M, X>, h: nat,
                                     p: nat): (s': State<S, Y, M, X>)
    requires Sized(w) && Shaped(w, s) && Enabled(w, s, h, p, false)
    ensures Shaped(w, s')
  {
    var k, st := HostLoop.StripeAt(s.at[h], p), s.net.local[h];
    var moved := s.(at := s.at[h := HostLoop.Move(w.loops[h], s.at[h], w.nproc[h], p)]);
    match HostLoop.KindOf(w.loops[h], s.at[h], w.nproc[h], p)
    case Writes => moved.(net := s.net.(local := s.net.local[h := Host(w.write(h, k, p, st.shared), st.own)]))
    case Reads =>
      var row: seq<X> := s.mem[h][p := w.read(h, k, p, st.shared, s.mem[h][p])];
      moved.(mem := s.mem[h := row])
    case Exchanges => if s.net.pc[h] == Mark(w, k + 1) then moved else s.(net := Move(Real(w), s.net, h))
    case Neither => moved
  }

  ghost predicate Initial<A, S, Y, M, X>(w: Collective<A, S, Y, M, X>, s: State<S, Y, M, X>)
    requires Sized(w)
  {
    && Shaped(w, s) && s.net == Start(Real(w), w.init)
    && (forall h :: 0 <= h < w.plan.n ==> HostLoop.Begins(w.loops[h], s.at[h], w.nproc[h]))
    && forall h, p {:trigger s.mem[h][p]} :: 0 <= h < w.plan.n && 0 <= p < w.nproc[h] ==>
         s.mem[h][p] == w.view(h, p, w.init[h].own)
  }

  ghost function Run<A, S, Y, M, X>(w: Collective<A, S, Y, M, X>, s: State<S, Y, M, X>,
                                    sched: seq<(nat, nat)>): (s': State<S, Y, M, X>)
    requires Sized(w) && Shaped(w, s)
    ensures Shaped(w, s')
    decreases |sched|
  {
    if sched == [] then s
    else
      var before := Run(w, s, sched[..|sched| - 1]);
      var (h, p) := sched[|sched| - 1];
      if Enabled(w, before, h, p, false) then Step(w, before, h, p) else before
  }

  // ---------------------------------------------------------------- messages in step

  lemma {:induction false} SameScripts<A, S, Y, M, X>(w: Collective<A, S, Y, M, X>)
    requires Sized(w)
    ensures Real(w).scripts == Planned(w).scripts && !Real(w).sendFirst && !Planned(w).sendFirst
  {
    hide Consistent;
  }

  /** The two networks are at the same point of their messages. */
  ghost predicate InStepWith<A, S, Y, M, X>(w: Collective<A, S, Y, M, X>, c: Config<Host<S, Y>, Option<M>>,
                                            d: Config<Host<S, Y>, Option<M>>)
    requires Sized(w)
  {
    WellFormed(Real(w), c) && WellFormed(Planned(w), d) && c.pc == d.pc && c.chan == d.chan
  }

  lemma {:induction false} SameTurn<A, S, Y, M, X>(w: Collective<A, S, Y, M, X>, c: Config<Host<S, Y>, Option<M>>,
                                                   d: Config<Host<S, Y>, Option<M>>, h: nat, rendezvous: bool)
    requires Sized(w) && InStepWith(w, c, d)
    ensures CanMove(Real(w), c, h, rendezvous) <==> CanMove(Planned(w), d, h, rendezvous)
  {
    hide Consistent, ScriptUpto, Sized;
  }

  /** What host h does in round r is a message, or its own step. */
  ghost predicate IsMessage<A, S, Y, M, X>(w: Collective<A, S, Y, M, X>, h: nat, r: nat)
    requires Sized(w) && h < w.plan.n
  {
    && (OutAt(Planned(w), h, r).Some? ==> OutAt(Planned(w), h, r).value.how.Msg?)
    && (InAt(Planned(w), h, r).Some? ==> InAt(Planned(w), h, r).value.how.Msg?)
  }

  ghost predicate IsOwn<A, S, Y, M, X>(w: Collective<A, S, Y, M, X>, h: nat, r: nat)
    requires Sized(w) && h < w.plan.n
  {
    && OutAt(Planned(w), h, r).Some? && OutAt(Planned(w), h, r).value.how.Own?
    && InAt(Planned(w), h, r).Some? && InAt(Planned(w), h, r).value.how.Own?
  }

  lemma {:induction false} RoundKinds<A, S, Y, M, X>(w: Collective<A, S, Y, M, X>, h: nat, k: nat, j: nat)
    requires Sized(w) && h < w.plan.n && k < StripeCount(w) && j < w.plan.len + 2
    ensures var r := Base(k, w.plan.len) + j;
      if 1 <= j <= w.plan.len then IsMessage(w, h, r) else IsOwn(w, h, r)
  {
    hide Base, PhaseNet, RoundAt, AllConsistent;
    DeedAt(w.plan, h, k, j);
  }

  /** One action of a host changes nobody else's buffer. */
  lemma {:induction false} OthersStay<A, S, Y, M, X>(w: Collective<A, S, Y, M, X>, c: Config<Host<S, Y>, Option<M>>,
                                                     h: nat)
    requires Sized(w) && WellFormed(Real(w), c) && h < w.plan.n && CanMove(Real(w), c, h, false)
    ensures var c' := Move(Real(w), c, h);
      && c'.pc == c.pc[h := c.pc[h] + 1]
      && forall g :: 0 <= g < w.plan.n && g != h ==> c'.local[g] == c.local[g]
  {
    hide Consistent, ScriptUpto, Sized, Pop, Push, UnpackDeed, PackDeed;
  }

  lemma {:induction false} UnpackIs<A, S, Y, M, X>(w: Collective<A, S, Y, M, X>, how: Deed<A>, st: Host<S, Y>,
                                                   other: Host<S, Y>, m: Option<M>)
    requires Sized(w)
    ensures how.Own? ==> Real(w).unpack(how, st, m) == st
    ensures how.Msg? && st.shared == other.shared ==>
      Real(w).unpack(how, st, m).shared == Planned(w).unpack(how, other, m).shared
  {
    hide Consistent, ScriptUpto, Sized;
  }

  /** A message leaves from, and goes to, the same buffers in both. */
  lemma {:induction false} SameMessage<A, S, Y, M, X>(w: Collective<A, S, Y, M, X>, c: Config<Host<S, Y>, Option<M>>,
                                                      d: Config<Host<S, Y>, Option<M>>, h: nat)
    requires Sized(w) && InStepWith(w, c, d) && h < w.plan.n && CanMove(Real(w), c, h, false)
    requires CanMove(Planned(w), d, h, false)
    requires IsMessage(w, h, c.pc[h] / 3) && c.local[h].shared == d.local[h].shared
    ensures var c', d' := Move(Real(w), c, h), Move(Planned(w), d, h);
      InStepWith(w, c', d') && c'.local[h].shared == d'.local[h].shared
  {
    hide Consistent, ScriptUpto, Sized, Pop, Push;
    SameScripts(w);
    var r := c.pc[h] / 3;
    if InAt(Real(w), h, r).Some? {
      var half := InAt(Real(w), h, r).value;
      assert InAt(Planned(w), h, r) == InAt(Real(w), h, r);
      Paired(Real(w), h, r);
      if c.chan[half.peer][h] != [] {
        UnpackIs(w, half.how, c.local[h], d.local[h], c.chan[half.peer][h][0]);
      }
    }
  }

  /** The host's own step changes nothing in the network that runs. */
  lemma {:induction false} OwnIsPassive<A, S, Y, M, X>(w: Collective<A, S, Y, M, X>, c: Config<Host<S, Y>, Option<M>>,
                                                       d: Config<Host<S, Y>, Option<M>>, h: nat)
    requires Sized(w) && InStepWith(w, c, d) && h < w.plan.n && CanMove(Real(w), c, h, false)
    requires CanMove(Planned(w), d, h, false)
    requires IsOwn(w, h, c.pc[h] / 3)
    ensures var c', d' := Move(Real(w), c, h), Move(Planned(w), d, h);
      InStepWith(w, c', d') && c'.local[h] == c.local[h]
  {
    hide Consistent, ScriptUpto, Sized, Pop, Push;
    SameScripts(w);
    var r := c.pc[h] / 3;
    var half := InAt(Real(w), h, r).value;
    assert InAt(Planned(w), h, r) == InAt(Real(w), h, r);
    Paired(Real(w), h, r);
    if c.chan[half.peer][h] != [] {
      UnpackIs(w, half.how, c.local[h], d.local[h], c.chan[half.peer][h][0]);
    }
  }

  // ---------------------------------------------------------------- what a host has

  /** How many stripes host h has exchanged. */
  ghost function Done<A, S, Y, M, X>(w: Collective<A, S, Y, M, X>, s: State<S, Y, M, X>, h: nat): nat
    requires Sized(w) && Shaped(w, s) && h < w.plan.n
  {
    HostLoop.Exchanged(w.loops[h], s.at[h], w.nproc[h])
  }

  /** The process of host h that exchanges is in its exchange. */
  ghost predicate InExchange<A, S, Y, M, X>(w: Collective<A, S, Y, M, X>, s: State<S, Y, M, X>, h: nat)
    requires Sized(w) && Shaped(w, s) && h < w.plan.n
  {
    HostLoop.InExchange(w.loops[h], s.at[h], w.nproc[h])
  }

  /** The host's place in its messages. */
  ghost predicate PlaceOk<A, S, Y, M, X>(w: Collective<A, S, Y, M, X>, e: nat, exchanging: bool, pc: nat) {
    if exchanging then Mark(w, e) <= pc <= Mark(w, e + 1) else pc == Mark(w, e)
  }

  /** The shared buffer: what the writers in `order` have put in so far, or what the messages have made of it. */
  ghost predicate BufferOk<A, S, Y, M, X>(w: Collective<A, S, Y, M, X>, h: nat, e: nat, pc: nat, order: seq<nat>,
                                          buf: S)
    requires Sized(w) && h < w.plan.n
  {
    var r, b := ReceivedRounds(false, pc), Base(e, w.plan.len);
    buf == if r == b then Written(w, h, e, order, ByRounds(w, b)[h].shared) else ByRounds(w, r)[h].shared
  }

  ghost predicate HostOk<A, S, Y, M, X>(w: Collective<A, S, Y, M, X>, s: State<S, Y, M, X>, h: nat, order: seq<nat>)
    requires Sized(w) && Shaped(w, s) && h < w.plan.n
  {
    && HostLoop.Inv(w.loops[h], s.at[h], w.nproc[h]) && HostLoop.Wrote(w.loops[h], s.at[h], w.nproc[h], order)
    && PlaceOk(w, Done(w, s, h), InExchange(w, s, h), s.net.pc[h])
    && BufferOk(w, h, Done(w, s, h), s.net.pc[h], order, s.net.local[h].shared)
    && MemoryOk(w, s, h)
  }

  /** A process that has read k stripes has what it has in the plan after k stripes. */
  ghost predicate MemoryOk<A, S, Y, M, X>(w: Collective<A, S, Y, M, X>, s: State<S, Y, M, X>, h: nat)
    requires Sized(w) && Shaped(w, s) && h < w.plan.n
  {
    forall p {:trigger s.mem[h][p]} :: 0 <= p < w.nproc[h] ==>
      s.mem[h][p] ==
      w.view(h, p, ByRounds(w, Base(HostLoop.HasRead(w.loops[h], s.at[h], w.nproc[h], p), w.plan.len))[h].own)
  }

  /** The run corresponds to the run `trail` of the plan; `order[h]` lists who has written on host h. */
  ghost predicate Follows<A, S, Y, M, X>(w: Collective<A, S, Y, M, X>, s: State<S, Y, M, X>, trail: seq<nat>,
                                         order: seq<seq<nat>>)
    requires Sized(w) && Shaped(w, s)
  {
    && |order| == w.plan.n && InStepWith(w, s.net, PlanAfter(w, trail))
    && forall h :: 0 <= h < w.plan.n ==> HostOk(w, s, h, order[h])
  }

  // ---------------------------------------------------------------- every step follows the plan

  lemma {:induction false} Rounds(b: nat, pc: nat)
    ensures ReceivedRounds(false, 3 * b) == ReceivedRounds(false, 3 * b + 1) == b
    ensures ReceivedRounds(false, pc + 1) == ReceivedRounds(false, pc) + (if pc % 3 == 1 then 1 else 0)
    ensures ReceivedRounds(false, pc) == if pc % 3 == 2 then pc / 3 + 1 else pc / 3
  {
  }

  lemma {:induction false} WrittenMore<A, S, Y, M, X>(w: Collective<A, S, Y, M, X>, h: nat, k: nat, order: seq<nat>,
                                                      p: nat, buf: S)
    ensures Written(w, h, k, order + [p], buf) == w.write(h, k, p, Written(w, h, k, order, buf))
  {
    assert (order + [p])[..|order|] == order;
  }

  lemma {:induction false} HostWrites<A, S, Y, M, X>(w: Collective<A, S, Y, M, X>, s: State<S, Y, M, X>, h: nat, p: nat,
                                                     order: seq<nat>)
    requires Sized(w) && Shaped(w, s) && Enabled(w, s, h, p, false) && HostOk(w, s, h, order)
    requires HostLoop.KindOf(w.loops[h], s.at[h], w.nproc[h], p) == HostLoop.Writes
    ensures HostOk(w, Step(w, s, h, p), h, order + [p])
  {
    hide IsPlan, AllConsistent, Real, ByRounds, Base, HostLoop.Inv, HostLoop.Wrote, HostLoop.Move, HostLoop.Enabled,
      HostLoop.Exchanged, HostLoop.HasRead, HostLoop.InExchange, HostLoop.KindOf, Written, ReceivedRounds, CanMove;
    HostLoop.WriteStep(w.loops[h], s.at[h], w.nproc[h], p, order);
    var e := Done(w, s, h);
    Rounds(Base(e, w.plan.len), 0);
    WrittenMore(w, h, e, order, p, ByRounds(w, Base(e, w.plan.len))[h].shared);
  }

  lemma {:induction false} HostReads<A, S, Y, M, X>(w: Collective<A, S, Y, M, X>, s: State<S, Y, M, X>, h: nat, p: nat,
                                                    order: seq<nat>)
    requires Sized(w) && Shaped(w, s) && Enabled(w, s, h, p, false) && HostOk(w, s, h, order)
    requires HostLoop.KindOf(w.loops[h], s.at[h], w.nproc[h], p) == HostLoop.Reads
    requires StripeFits(w, h, HostLoop.StripeAt(s.at[h], p))
    ensures HostOk(w, Step(w, s, h, p), h, order)
  {
    hide IsPlan, AllConsistent, Real, ByRounds, HostLoop.Inv, HostLoop.Wrote, HostLoop.Move, HostLoop.Enabled,
      HostLoop.Exchanged, HostLoop.HasRead, HostLoop.InExchange, HostLoop.KindOf, ReceivedRounds, CanMove, WritesFit;
    HostLoop.ReadStep(w.loops[h], s.at[h], w.nproc[h], p, order);
    var e := Done(w, s, h);
    Rounds(Base(e, w.plan.len), 0);
    assert Base(e, w.plan.len) == Base(e - 1, w.plan.len) + w.plan.len + 2;
    assert s.mem[h][p] == w.view(h, p, ByRounds(w, Base(e - 1, w.plan.len))[h].own);
  }

  lemma {:induction false} HostGoesOn<A, S, Y, M, X>(w: Collective<A, S, Y, M, X>, s: State<S, Y, M, X>, h: nat, p: nat,
                                                     order: seq<nat>)
    requires Sized(w) && Shaped(w, s) && Enabled(w, s, h, p, false) && HostOk(w, s, h, order)
    requires HostLoop.KindOf(w.loops[h], s.at[h], w.nproc[h], p) == HostLoop.Neither
    ensures HostOk(w, Step(w, s, h, p), h, order)
  {
    hide IsPlan, AllConsistent, Real, ByRounds, Base, HostLoop.Inv, HostLoop.Wrote, HostLoop.Move, HostLoop.Enabled,
      HostLoop.Exchanged, HostLoop.HasRead, HostLoop.InExchange, HostLoop.KindOf, BufferOk, CanMove;
    HostLoop.PlainStep(w.loops[h], s.at[h], w.nproc[h], p, order);
    BaseMonotone(Done(w, s, h), Done(w, s, h) + 1, w.plan.len);
  }

  /** The leader is in its exchange. */
  lemma {:induction false} Exchanging<A, S, Y, M, X>(w: Collective<A, S, Y, M, X>, s: State<S, Y, M, X>, h: nat, p: nat,
                                                     order: seq<nat>)
    requires Sized(w) && Shaped(w, s) && Enabled(w, s, h, p, false) && HostOk(w, s, h, order)
    requires HostLoop.KindOf(w.loops[h], s.at[h], w.nproc[h], p) == HostLoop.Exchanges
    ensures p == 0 && InExchange(w, s, h) && Done(w, s, h) == HostLoop.StripeAt(s.at[h], 0) < StripeCount(w)
    ensures HostLoop.Complete(w.loops[h], w.nproc[h], order)
  {
    hide IsPlan, AllConsistent, Real, HostLoop.Inv, HostLoop.Wrote, HostLoop.Move, HostLoop.Exchanged, HostLoop.HasRead,
      BufferOk, PlaceOk, MemoryOk, CanMove, HostLoop.Complete;
    HostLoop.MoveKeepsInv(w.loops[h], s.at[h], w.nproc[h], p);
    HostLoop.ExchangeStep(w.loops[h], s.at[h], w.nproc[h], order);
  }

  lemma {:induction false} HostExchanged<A, S, Y, M, X>(w: Collective<A, S, Y, M, X>, s: State<S, Y, M, X>, h: nat,
                                                        order: seq<nat>)
    requires Sized(w) && Shaped(w, s) && Enabled(w, s, h, 0, false) && HostOk(w, s, h, order) && InExchange(w, s, h)
    requires s.net.pc[h] == Mark(w, Done(w, s, h) + 1) && Done(w, s, h) == HostLoop.StripeAt(s.at[h], 0)
    requires HostLoop.KindOf(w.loops[h], s.at[h], w.nproc[h], 0) == HostLoop.Exchanges
    ensures HostOk(w, Step(w, s, h, 0), h, [])
  {
    hide IsPlan, AllConsistent, Real, ByRounds, HostLoop.Inv, HostLoop.Wrote, HostLoop.Move, HostLoop.Enabled,
      HostLoop.Exchanged, HostLoop.HasRead, HostLoop.InExchange, HostLoop.KindOf, ReceivedRounds, CanMove,
      HostLoop.Complete;
    HostLoop.ExchangeStep(w.loops[h], s.at[h], w.nproc[h], order);
    var e := Done(w, s, h);
    Rounds(Base(e + 1, w.plan.len), 0);
    BaseMonotone(e, e + 1, w.plan.len);
  }

  /** The plan after one more action. */
  lemma {:induction false} OneAction<A, S, Y, M, X>(w: Collective<A, S, Y, M, X>, trail: seq<nat>, h: nat)
    requires Sized(w) && h < w.plan.n
    requires CanMove(Planned(w), PlanAfter(w, trail), h, false)
    ensures var d := PlanAfter(w, trail);
      var d' := PlanAfter(w, trail + [h]);
      && d' == Move(Planned(w), d, h)
      && d.local[h] == ByRounds(w, ReceivedRounds(false, d.pc[h]))[h]
      && d'.local[h] == ByRounds(w, ReceivedRounds(false, d'.pc[h]))[h]
  {
    hide Planned, IsPlan, AllConsistent, Consistent, CanMove, Move;
    assert (trail + [h])[..|trail|] == trail;
    SameScripts(w);
    LocalStateIsRoundState(Planned(w), w.init, trail, h);
    LocalStateIsRoundState(Planned(w), w.init, trail + [h], h);
  }

  /** Where the host is in the stripe. */
  lemma {:induction false} RoundOfStripe<A, S, Y, M, X>(w: Collective<A, S, Y, M, X>, e: nat, pc: nat) returns (j: nat)
    requires Mark(w, e) <= pc < Mark(w, e + 1)
    ensures pc / 3 == Base(e, w.plan.len) + j && j < w.plan.len + 2
  {
    j := pc / 3 - Base(e, w.plan.len);
  }

  /** A message, in the middle of a stripe. */
  lemma {:induction false} MessageKeepsBuffer<A, S, Y, M, X>(w: Collective<A, S, Y, M, X>, s: State<S, Y, M, X>, h: nat,
                                                             e: nat, trail: seq<nat>, order: seq<nat>)
    requires Sized(w) && Shaped(w, s) && h < w.plan.n && CanMove(Real(w), s.net, h, false)
    requires InStepWith(w, s.net, PlanAfter(w, trail))
    requires Base(e, w.plan.len) < s.net.pc[h] / 3 && IsMessage(w, h, s.net.pc[h] / 3)
    requires BufferOk(w, h, e, s.net.pc[h], order, s.net.local[h].shared)
    ensures var c' := Move(Real(w), s.net, h);
      && InStepWith(w, c', PlanAfter(w, trail + [h]))
      && BufferOk(w, h, e, c'.pc[h], order, c'.local[h].shared)
  {
    hide IsPlan, AllConsistent, Real, Planned, ByRounds, Base, CanMove, Move, PlanAfter, ReceivedRounds, IsMessage,
      Written;
    var c, d := s.net, PlanAfter(w, trail);
    SameTurn(w, c, d, h, false);
    OneAction(w, trail, h);
    Rounds(0, c.pc[h]);
    SameMessage(w, c, d, h);
    OthersStay(w, c, h);
    Rounds(0, c.pc[h] + 1);
  }

  /** The host's own steps: before the messages all have written, after them the buffer stays as it is. */
  lemma {:induction false} OwnKeepsBuffer<A, S, Y, M, X>(w: Collective<A, S, Y, M, X>, s: State<S, Y, M, X>, h: nat,
                                                         e: nat, j: nat, trail: seq<nat>, order: seq<nat>)
    requires Sized(w) && Shaped(w, s) && h < w.plan.n && CanMove(Real(w), s.net, h, false)
    requires InStepWith(w, s.net, PlanAfter(w, trail))
    requires s.net.pc[h] / 3 == Base(e, w.plan.len) + j && (j == 0 || j == w.plan.len + 1)
    requires IsOwn(w, h, s.net.pc[h] / 3) && StripeFits(w, h, e) && HostLoop.Complete(w.loops[h], w.nproc[h], order)
    requires BufferOk(w, h, e, s.net.pc[h], order, s.net.local[h].shared)
    ensures var c' := Move(Real(w), s.net, h);
      && InStepWith(w, c', PlanAfter(w, trail + [h]))
      && BufferOk(w, h, e, c'.pc[h], order, c'.local[h].shared)
  {
    hide IsPlan, AllConsistent, Real, Planned, ByRounds, Base, CanMove, Move, PlanAfter, ReceivedRounds, IsOwn,
      Written, HostLoop.Complete;
    var c, d := s.net, PlanAfter(w, trail);
    SameTurn(w, c, d, h, false);
    OneAction(w, trail, h);
    OwnIsPassive(w, c, d, h);
    OthersStay(w, c, h);
    Rounds(Base(e, w.plan.len), c.pc[h]);
    Rounds(Base(e, w.plan.len), c.pc[h] + 1);
  }

  /** One action of the exchange of host h. */
  lemma {:induction false} HostActs<A, S, Y, M, X>(w: Collective<A, S, Y, M, X>, s: State<S, Y, M, X>, h: nat,
                                                   trail: seq<nat>, order: seq<nat>)
    requires Sized(w) && Shaped(w, s) && Enabled(w, s, h, 0, false) && HostOk(w, s, h, order) && InExchange(w, s, h)
    requires InStepWith(w, s.net, PlanAfter(w, trail)) && HostLoop.Complete(w.loops[h], w.nproc[h], order)
    requires s.net.pc[h] != Mark(w, Done(w, s, h) + 1)
    requires Done(w, s, h) == HostLoop.StripeAt(s.at[h], 0) < StripeCount(w)
    requires HostLoop.KindOf(w.loops[h], s.at[h], w.nproc[h], 0) == HostLoop.Exchanges
    requires StripeFits(w, h, Done(w, s, h))
    ensures var s' := Step(w, s, h, 0);
      InStepWith(w, s'.net, PlanAfter(w, trail + [h])) && HostOk(w, s', h, order)
  {
    hide IsPlan, AllConsistent, Real, Planned, ByRounds, Base, CanMove, Move, PlanAfter, BufferOk, HostLoop.Inv,
      HostLoop.Wrote, HostLoop.Complete, HostLoop.Move, StripeFits, InStepWith, HostLoop.Enabled, HostLoop.Exchanged,
      HostLoop.InExchange, HostLoop.KindOf, HostLoop.HasRead;
    var e, pc := Done(w, s, h), s.net.pc[h];
    var j := RoundOfStripe(w, e, pc);
    RoundKinds(w, h, e, j);
    if 1 <= j <= w.plan.len {
      MessageKeepsBuffer(w, s, h, e, trail, order);
    } else {
      OwnKeepsBuffer(w, s, h, e, j, trail, order);
    }
    OthersStay(w, s.net, h);
  }

  lemma {:induction false} OtherHostsStay<A, S, Y, M, X>(w: Collective<A, S, Y, M, X>, s: State<S, Y, M, X>, h: nat,
                                                         p: nat, g: nat, order: seq<nat>)
    requires Sized(w) && Shaped(w, s) && Enabled(w, s, h, p, false) && g < w.plan.n && g != h && HostOk(w, s, g, order)
    ensures HostOk(w, Step(w, s, h, p), g, order)
  {
    hide IsPlan, AllConsistent, Real, ByRounds, Base, CanMove, Move, BufferOk, HostLoop.Inv, HostLoop.Wrote,
      HostLoop.Move, HostLoop.Enabled, HostLoop.Exchanged, HostLoop.InExchange, HostLoop.KindOf, HostLoop.HasRead;
    if CanMove(Real(w), s.net, h, false) {
      OthersStay(w, s.net, h);
    }
  }

  /** One step on host h, its own part. */
  lemma {:induction false} HostFollows<A, S, Y, M, X>(w: Collective<A, S, Y, M, X>, s: State<S, Y, M, X>, h: nat,
                                                      p: nat, trail: seq<nat>, order: seq<nat>)
    returns (trail': seq<nat>, order': seq<nat>)
    requires Valid(w) && Shaped(w, s) && Enabled(w, s, h, p, false) && HostOk(w, s, h, order)
    requires InStepWith(w, s.net, PlanAfter(w, trail))
    ensures var s' := Step(w, s, h, p); InStepWith(w, s'.net, PlanAfter(w, trail')) && HostOk(w, s', h, order')
  {
    hide IsPlan, AllConsistent, Real, Planned, CanMove, Move, PlanAfter, HostOk, StripeFits, Accepting, Mark,
      HostLoop.Enabled, HostLoop.Inv, HostLoop.Move, HostLoop.KindOf, HostLoop.Complete, InExchange, Done;
    var k := HostLoop.StripeAt(s.at[h], p);
    trail', order' := trail, order;
    match HostLoop.KindOf(w.loops[h], s.at[h], w.nproc[h], p)
    case Writes =>
      HostWrites(w, s, h, p, order);
      order' := order + [p];
    case Reads =>
      InRangeStripe(w, s, h, p);
      assert StripeFits(w, h, k);
      HostReads(w, s, h, p, order);
    case Exchanges =>
      Exchanging(w, s, h, p, order);
      if s.net.pc[h] == Mark(w, k + 1) {
        HostExchanged(w, s, h, order);
        order' := [];
      } else {
        assert StripeFits(w, h, k);
        HostActs(w, s, h, trail, order);
        trail' := trail + [h];
      }
    case Neither => HostGoesOn(w, s, h, p, order);
  }

  lemma {:induction false} InRangeStripe<A, S, Y, M, X>(w: Collective<A, S, Y, M, X>, s: State<S, Y, M, X>, h: nat,
                                                        p: nat)
    requires Sized(w) && Shaped(w, s) && Enabled(w, s, h, p, false)
    ensures HostLoop.StripeAt(s.at[h], p) < StripeCount(w)
  {
    hide IsPlan, AllConsistent, Real, CanMove;
  }

  lemma {:induction false} StepFollows<A, S, Y, M, X>(w: Collective<A, S, Y, M, X>, s: State<S, Y, M, X>, h: nat,
                                                      p: nat, trail: seq<nat>, order: seq<seq<nat>>)
    returns (trail': seq<nat>, order': seq<seq<nat>>)
    requires Valid(w) && Shaped(w, s) && Enabled(w, s, h, p, false) && Follows(w, s, trail, order)
    ensures Follows(w, Step(w, s, h, p), trail', order')
  {
    hide IsPlan, AllConsistent, Real, Planned, CanMove, PlanAfter, HostOk, StripeFits, Accepting, Step, InStepWith,
      HostLoop.Enabled, Mark, HostLoop.KindOf;
    var s' := Step(w, s, h, p);
    assert HostOk(w, s, h, order[h]);
    var own;
    trail', own := HostFollows(w, s, h, p, trail, order[h]);
    order' := order[h := own];
    forall g | 0 <= g < w.plan.n
      ensures HostOk(w, s', g, order'[g])
    {
      if g != h {
        assert HostOk(w, s, g, order[g]);
        OtherHostsStay(w, s, h, p, g, order[g]);
      }
    }
  }

  lemma {:induction false} InitialFollows<A, S, Y, M, X>(w: Collective<A, S, Y, M, X>, s: State<S, Y, M, X>)
    returns (order: seq<seq<nat>>)
    requires Sized(w) && Initial(w, s)
    ensures Follows(w, s, [], order)
  {
    hide IsPlan, AllConsistent, Real, Planned, HostLoop.Inv, HostLoop.Wrote, HostLoop.Exchanged, HostLoop.HasRead,
      HostLoop.InExchange, HostLoop.Begins;
    SameScripts(w);
    order := seq(w.plan.n, h => []);
    forall h | 0 <= h < w.plan.n
      ensures HostOk(w, s, h, order[h])
    {
      HostLoop.StartInv(w.loops[h], s.at[h], w.nproc[h]);
    }
  }

  lemma {:induction false} RunFollows<A, S, Y, M, X>(w: Collective<A, S, Y, M, X>, s: State<S, Y, M, X>,
                                                     sched: seq<(nat, nat)>)
    returns (trail: seq<nat>, order: seq<seq<nat>>)
    requires Valid(w) && Initial(w, s)
    ensures Follows(w, Run(w, s, sched), trail, order)
    decreases |sched|
  {
    hide Sized, Real, Planned, Follows, Step, Enabled, StripeFits, Accepting, HostLoop.Begins, Start;
    if sched == [] {
      trail := [];
      order := InitialFollows(w, s);
    } else {
      trail, order := RunFollows(w, s, sched[..|sched| - 1]);
      var before := Run(w, s, sched[..|sched| - 1]);
      var (h, p) := sched[|sched| - 1];
      if Enabled(w, before, h, p, false) {
        trail, order := StepFollows(w, before, h, p, trail, order);
      }
    }
  }

  // ---------------------------------------------------------------- the results

  /** The process has gone through all stripes. */
  ghost predicate Finished<A, S, Y, M, X>(w: Collective<A, S, Y, M, X>, s: State<S, Y, M, X>, h: nat, p: nat)
    requires Sized(w) && Shaped(w, s) && h < w.plan.n && p < w.nproc[h]
  {
    HostLoop.StripeAt(s.at[h], p) >= StripeCount(w)
  }

  /**
   In every run of all processes of all hosts, a process that has gone through all stripes has
   in its memory what it has at the end of the round-by-round run of the plan.
   */
  lemma {:induction false} WholeRunAgrees<A, S, Y, M, X>(w: Collective<A, S, Y, M, X>, s: State<S, Y, M, X>,
                                                         sched: seq<(nat, nat)>, h: nat, p: nat)
    requires Valid(w) && Initial(w, s) && h < w.plan.n && p < w.nproc[h] && Finished(w, Run(w, s, sched), h, p)
    ensures Run(w, s, sched).mem[h][p] == w.view(h, p, ByRounds(w, Base(StripeCount(w), w.plan.len))[h].own)
  {
    hide IsPlan, AllConsistent, Real, Planned, StripeFits, Accepting, HostLoop.Begins, Start, Run, InStepWith,
      BufferOk, HostLoop.Inv, HostLoop.Wrote, HostLoop.HasRead, HostLoop.InExchange, HostLoop.Exchanged, ByRounds;
    var trail, order := RunFollows(w, s, sched);
    var s' := Run(w, s, sched);
    assert HostOk(w, s', h, order[h]);
    HostLoop.DoneMeans(w.loops[h], s'.at[h], w.nproc[h], p);
  }

  /** On a host that does not wait for a message somebody can go on. */
  lemma {:induction false} HostMoves<A, S, Y, M, X>(w: Collective<A, S, Y, M, X>, s: State<S, Y, M, X>, h: nat,
                                                    order: seq<nat>) returns (p: nat)
    requires Sized(w) && Shaped(w, s) && h < w.plan.n && HostOk(w, s, h, order)
    requires !HostLoop.AllDone(w.loops[h], s.at[h], w.nproc[h])
    requires InExchange(w, s, h) ==> s.net.pc[h] == Mark(w, Done(w, s, h) + 1) || CanMove(Real(w), s.net, h, true)
    ensures Enabled(w, s, h, p, true)
  {
    hide IsPlan, AllConsistent, Real, HostLoop.Inv, HostLoop.Enabled, HostLoop.AllDone, CanMove, Mark, HostLoop.Wrote,
      BufferOk, MemoryOk, PlaceOk, HostLoop.Exchanged, HostLoop.InExchange, HostLoop.KindOf;
    p := HostLoop.SomebodyMoves(w.loops[h], s.at[h], w.nproc[h]);
    HostLoop.MoveKeepsInv(w.loops[h], s.at[h], w.nproc[h], p);
    if HostLoop.KindOf(w.loops[h], s.at[h], w.nproc[h], p) == HostLoop.Exchanges {
      LeaderExchanges(w, s, h, p);
    }
  }

  lemma {:induction false} LeaderExchanges<A, S, Y, M, X>(w: Collective<A, S, Y, M, X>, s: State<S, Y, M, X>, h: nat,
                                                          p: nat)
    requires Sized(w) && Shaped(w, s) && h < w.plan.n && HostLoop.Inv(w.loops[h], s.at[h], w.nproc[h])
    requires p < w.nproc[h] && HostLoop.StripeAt(s.at[h], p) < StripeCount(w)
    requires HostLoop.KindOf(w.loops[h], s.at[h], w.nproc[h], p) == HostLoop.Exchanges
    ensures p == 0 && InExchange(w, s, h) && Done(w, s, h) == HostLoop.StripeAt(s.at[h], 0)
  {
    hide IsPlan, AllConsistent, Real, HostLoop.Inv, HostLoop.Exchanged;
    HostLoop.InExchangeMeans(w.loops[h], s.at[h], w.nproc[h]);
  }

  /** A host that is not through its messages is not through its stripes. */
  lemma {:induction false} NotDone<A, S, Y, M, X>(w: Collective<A, S, Y, M, X>, s: State<S, Y, M, X>, h: nat,
                                                  order: seq<nat>)
    requires Sized(w) && Shaped(w, s) && h < w.plan.n && HostOk(w, s, h, order) && s.net.pc[h] < Mark(w, StripeCount(w))
    ensures !HostLoop.AllDone(w.loops[h], s.at[h], w.nproc[h])
  {
    hide IsPlan, AllConsistent, Real, Mark, BufferOk, MemoryOk, HostLoop.Inv, HostLoop.Wrote, HostLoop.Exchanged,
      HostLoop.InExchange;
    if HostLoop.StripeAt(s.at[h], 0) >= StripeCount(w) {
      HostLoop.DoneMeans(w.loops[h], s.at[h], w.nproc[h], 0);
    }
  }

  /** A host that is in an exchange is not through its messages. */
  lemma {:induction false} MessagesLeft<A, S, Y, M, X>(w: Collective<A, S, Y, M, X>, s: State<S, Y, M, X>, h: nat,
                                                       order: seq<nat>)
    requires Sized(w) && Shaped(w, s) && h < w.plan.n && HostOk(w, s, h, order) && InExchange(w, s, h)
    requires s.net.pc[h] != Mark(w, Done(w, s, h) + 1)
    ensures s.net.pc[h] < Mark(w, StripeCount(w))
  {
    hide IsPlan, AllConsistent, Real, BufferOk, MemoryOk, HostLoop.Inv, HostLoop.Wrote, HostLoop.Exchanged,
      HostLoop.InExchange;
    HostLoop.InExchangeMeans(w.loops[h], s.at[h], w.nproc[h]);
    BaseMonotone(Done(w, s, h) + 1, StripeCount(w), w.plan.len);
  }

  /** While a host has messages left, one can act on its own. */
  lemma {:induction false} MessagesMove<A, S, Y, M, X>(w: Collective<A, S, Y, M, X>, s: State<S, Y, M, X>,
                                                       trail: seq<nat>, h: nat) returns (q: nat)
    requires Valid(w) && Shaped(w, s) && InStepWith(w, s.net, PlanAfter(w, trail)) && h < w.plan.n
    requires s.net.pc[h] < Mark(w, StripeCount(w))
    ensures q < w.plan.n && s.net.pc[q] < Mark(w, StripeCount(w)) && CanMove(Real(w), s.net, q, true)
  {
    hide Real, Planned, CanMove, StripeFits, Accepting, Base, Exec, Start, Consistent, AllConsistent;
    SameScripts(w);
    ScriptEnds(w, h);
    q := NeverStuck(Planned(w), w.init, seq(w.plan.n, i => 0), trail);
    SameTurn(w, s.net, PlanAfter(w, trail), q, true);
    MoverHasMessages(w, s, q);
  }

  lemma {:induction false} ScriptEnds<A, S, Y, M, X>(w: Collective<A, S, Y, M, X>, h: nat)
    requires Sized(w) && h < w.plan.n
    ensures |Planned(w).scripts[h]| == |Real(w).scripts[h]| == Base(StripeCount(w), w.plan.len)
  {
    hide Base, PhaseNet, AllConsistent, Consistent;
    SameScripts(w);
    NoDeeds(w.plan, h, Base(StripeCount(w), w.plan.len));
  }

  lemma {:induction false} MoverHasMessages<A, S, Y, M, X>(w: Collective<A, S, Y, M, X>, s: State<S, Y, M, X>, q: nat)
    requires Sized(w) && Shaped(w, s) && CanMove(Real(w), s.net, q, true)
    ensures q < w.plan.n && s.net.pc[q] < Mark(w, StripeCount(w))
  {
    hide Real, Base, AllConsistent, IsPlan;
    ScriptEnds(w, q);
  }

  /** Until all have gone through all stripes some process can go on, even with synchronous sends. */
  lemma {:induction false} WholeRunNeverStuck<A, S, Y, M, X>(w: Collective<A, S, Y, M, X>, s: State<S, Y, M, X>,
                                                             sched: seq<(nat, nat)>)
    requires Valid(w) && Initial(w, s)
    ensures var s' := Run(w, s, sched);
      || (forall h, p :: 0 <= h < w.plan.n && 0 <= p < w.nproc[h] ==> Finished(w, s', h, p))
      || exists h, p :: Enabled(w, s', h, p, true)
  {
    hide IsPlan, AllConsistent, Real, Planned, StripeFits, Accepting, HostLoop.Begins, Start, Run, InStepWith, HostOk,
      PlanAfter, Enabled, InExchange, Mark, CanMove, Done;
    var trail, order := RunFollows(w, s, sched);
    var s' := Run(w, s, sched);
    if h, p :| 0 <= h < w.plan.n && 0 <= p < w.nproc[h] && !Finished(w, s', h, p) {
      assert HostOk(w, s', h, order[h]);
      if InExchange(w, s', h) && s'.net.pc[h] != Mark(w, Done(w, s', h) + 1) {
        MessagesLeft(w, s', h, order[h]);
        var q := MessagesMove(w, s', trail, h);
        assert HostOk(w, s', q, order[q]);
        NotDone(w, s', q, order[q]);
        var i := HostMoves(w, s', q, order[q]);
      } else {
        var i := HostMoves(w, s', h, order[h]);
      }
    }
  }
}
