/**
 What the stripe loops of a gather and of a scatter have in common: some processes write a
 stripe to the shared buffer, local rank 0 exchanges it, and all read; nobody writes or reads
 during the exchange, and nobody reads before it or writes too early for it.
 */
module HostLoop {
  import opened Layout
  import opened Network
  import GatherLoop
  import ScatterLoop

  /** In a scatter the root, if it is on this host, is the only one to write. */
  datatype Loop = Gather(gather: GatherLoop.Loop) | Scatter(stripes: nat, root: Option<nat>)

  datatype State = InGather(g: GatherLoop.State) | InScatter(s: ScatterLoop.State<()>)

  /** What the next step of a process does to the buffers. */
  datatype Kind = Writes | Exchanges | Reads | Neither

  /** The loop of the scatter alone, without the bytes. */
  function Control(stripes: nat, root: Option<nat>): ScatterLoop.Job<()> {
    ScatterLoop.Job(stripes, root, (s: nat, buf: seq<()>) => buf, (s: nat, buf: seq<()>) => buf)
  }

  function StripesOf(loop: Loop): nat {
    match loop
    case Gather(gather) => gather.stripes
    case Scatter(stripes, _) => stripes
  }

  ghost predicate Shaped(loop: Loop, at: State, n: nat) {
    match loop
    case Gather(_) => at.InGather? && |at.g.procs| == |at.g.wrote| == n
    case Scatter(_, _) => at.InScatter? && |at.s.procs| == |at.s.out| == n
  }

  ghost predicate ValidLoop(loop: Loop, n: nat) {
    match loop
    case Gather(gather) => gather.resetter < n
    case Scatter(stripes, root) => ScatterLoop.ValidJob(Control(stripes, root), n)
  }

  /** The stripe that a process is in, and the step before which it is. */
  function StripeAt(at: State, p: nat): nat
    requires p < if at.InGather? then |at.g.procs| else |at.s.procs|
  {
    if at.InGather? then at.g.procs[p].stripe else at.s.procs[p].stripe
  }

  ghost predicate Enabled(loop: Loop, at: State, n: nat, p: nat)
    requires Shaped(loop, at, n)
  {
    match loop
    case Gather(gather) => GatherLoop.Enabled(gather, at.g, p)
    case Scatter(stripes, root) => ScatterLoop.Enabled(Control(stripes, root), at.s, p)
  }

  ghost function Move(loop: Loop, at: State, n: nat, p: nat): (next: State)
    requires Shaped(loop, at, n) && Enabled(loop, at, n, p)
    ensures Shaped(loop, next, n)
  {
    match loop
    case Gather(gather) => InGather(GatherLoop.Move(gather, at.g, p))
    case Scatter(stripes, root) => InScatter(ScatterLoop.Move(Control(stripes, root), at.s, p))
  }

  ghost function KindOf(loop: Loop, at: State, n: nat, p: nat): Kind
    requires Shaped(loop, at, n) && p < n
  {
    match loop
    case Gather(_) =>
      var step := at.g.procs[p].step;
      if step == GatherLoop.WRITE then Writes else if step == GatherLoop.READ then Reads
      else if p == 0 && step == GatherLoop.EXCHANGE then Exchanges else Neither
    case Scatter(_, root) =>
      var step := at.s.procs[p].step;
      if root == Some(p) && step == ScatterLoop.PACK then Writes else if step == ScatterLoop.COPY then Reads
      else if p == 0 && step == ScatterLoop.EXCHANGE then Exchanges else Neither
  }

  /** How many stripes have been exchanged, and how many process p has read. */
  ghost function Exchanged(loop: Loop, at: State, n: nat): nat
    requires Shaped(loop, at, n) && n > 0
  {
    match loop
    case Gather(_) => at.g.exchanged
    case Scatter(_, _) => ScatterLoop.Past(at.s.procs[0], ScatterLoop.EXCHANGE)
  }

  ghost function HasRead(loop: Loop, at: State, n: nat, p: nat): nat
    requires Shaped(loop, at, n) && p < n
  {
    match loop
    case Gather(_) => GatherLoop.HasRead(at.g.procs[p])
    case Scatter(_, _) => ScatterLoop.Past(at.s.procs[p], ScatterLoop.COPY)
  }

  /** `order` lists who has written the stripe that is to be exchanged next. */
  ghost predicate Wrote(loop: Loop, at: State, n: nat, order: seq<nat>)
    requires Shaped(loop, at, n) && ValidLoop(loop, n)
  {
    match loop
    case Gather(_) => GatherLoop.WritersOf(at.g, order, at.g.exchanged)
    case Scatter(_, root) =>
      order == if root.Some? && ScatterLoop.Past(at.s.procs[root.value], ScatterLoop.PACK) ==
                                ScatterLoop.Past(at.s.procs[0], ScatterLoop.EXCHANGE) + 1 then [root.value] else []
  }

  /** All who have to write. */
  ghost predicate Complete(loop: Loop, n: nat, order: seq<nat>) {
    match loop
    case Gather(_) => IsPermutation(order, n)
    case Scatter(_, root) => order == if root.Some? then [root.value] else []
  }

  ghost predicate InExchange(loop: Loop, at: State, n: nat)
    requires Shaped(loop, at, n)
  {
    n > 0 && StripeAt(at, 0) < StripesOf(loop) && KindOf(loop, at, n, 0) == Exchanges
  }

  ghost predicate Inv(loop: Loop, at: State, n: nat) {
    && Shaped(loop, at, n) && ValidLoop(loop, n)
    && match loop
       case Gather(gather) => GatherLoop.Inv(gather, at.g)
       case Scatter(stripes, root) => ScatterLoop.Inv(Control(stripes, root), [], at.s)
  }

  ghost predicate AllDone(loop: Loop, at: State, n: nat)
    requires Shaped(loop, at, n)
  {
    forall p :: 0 <= p < n ==> StripeAt(at, p) >= StripesOf(loop)
  }

  /** All at the beginning; only the flag of a gather may hold something from before. */
  ghost predicate Begins(loop: Loop, at: State, n: nat) {
    match loop
    case Gather(_) => at.InGather? && at.g == GatherLoop.Start(n, at.g.flag)
    case Scatter(_, _) => at.InScatter? && at.s == ScatterLoop.Start(n, [])
  }

  // ---------------------------------------------------------------- the steps

  lemma {:induction false} StartInv(loop: Loop, at: State, n: nat)
    requires ValidLoop(loop, n) && Begins(loop, at, n)
    ensures Inv(loop, at, n) && n > 0 && Wrote(loop, at, n, []) && Exchanged(loop, at, n) == 0
    ensures !InExchange(loop, at, n) && forall p :: 0 <= p < n ==> HasRead(loop, at, n, p) == 0
  {
    hide GatherLoop.Inv, ScatterLoop.Inv;
    match loop
    case Gather(gather) => GatherLoop.StartInv(gather, n, at.g.flag);
    case Scatter(stripes, root) => ScatterLoop.StartInv(Control(stripes, root), n, []);
  }

  lemma {:induction false} MoveKeepsInv(loop: Loop, at: State, n: nat, p: nat)
    requires Inv(loop, at, n) && Enabled(loop, at, n, p)
    ensures Inv(loop, Move(loop, at, n, p), n) && p < n && StripeAt(at, p) < StripesOf(loop)
  {
    hide GatherLoop.Inv, ScatterLoop.Inv, GatherLoop.Move, ScatterLoop.Move;
    match loop
    case Gather(gather) => GatherLoop.MoveKeepsInv(gather, at.g, p);
    case Scatter(stripes, root) => ScatterLoop.MoveKeepsInv(Control(stripes, root), [], at.s, p);
  }

  /** What a step leaves as it is, unless it is its business. */
  ghost predicate Keeps(loop: Loop, at: State, next: State, n: nat, p: nat)
    requires Shaped(loop, at, n) && Shaped(loop, next, n) && n > 0
  {
    && Exchanged(loop, next, n) == Exchanged(loop, at, n)
    && forall q :: 0 <= q < n && q != p ==> HasRead(loop, next, n, q) == HasRead(loop, at, n, q)
  }

  /** A step that is neither a write, nor a read, nor the end of the exchange. */
  lemma {:induction false} PlainStep(loop: Loop, at: State, n: nat, p: nat, order: seq<nat>)
    requires Inv(loop, at, n) && p < n && Enabled(loop, at, n, p) && KindOf(loop, at, n, p) == Neither
    requires Wrote(loop, at, n, order)
    ensures var next := Move(loop, at, n, p);
      && Inv(loop, next, n) && Keeps(loop, at, next, n, p) && HasRead(loop, next, n, p) == HasRead(loop, at, n, p)
      && Wrote(loop, next, n, order) && (InExchange(loop, at, n) ==> InExchange(loop, next, n))
  {
    hide GatherLoop.FlagIs, GatherLoop.Together, GatherLoop.Led, ScatterLoop.FlagIs, ScatterLoop.Together,
      ScatterLoop.Led, ScatterLoop.Fed, ScatterLoop.BufferIs, ScatterLoop.OutIs;
    MoveKeepsInv(loop, at, n, p);
    match loop
    case Gather(gather) => assert GatherLoop.InLoop(gather, at.g.procs[p]);
    case Scatter(stripes, root) => assert ScatterLoop.InLoop(stripes, at.s.procs[p]);
  }

  /** A write: nobody is in the exchange, and the writer has not written before. */
  ghost predicate WriteEffect(loop: Loop, at: State, next: State, n: nat, p: nat, order: seq<nat>) {
    && Inv(loop, at, n) && Inv(loop, next, n) && p < n && Keeps(loop, at, next, n, p)
    && HasRead(loop, next, n, p) == HasRead(loop, at, n, p)
    && Exchanged(loop, at, n) == StripeAt(at, p) && Wrote(loop, next, n, order + [p])
    && !InExchange(loop, at, n) && !InExchange(loop, next, n)
  }

  lemma {:induction false} WriteStep(loop: Loop, at: State, n: nat, p: nat, order: seq<nat>)
    requires Inv(loop, at, n) && p < n && Enabled(loop, at, n, p) && KindOf(loop, at, n, p) == Writes
    requires Wrote(loop, at, n, order)
    ensures WriteEffect(loop, at, Move(loop, at, n, p), n, p, order)
  {
    hide GatherLoop.Inv, ScatterLoop.Inv, GatherLoop.Move, ScatterLoop.Move, WriteEffect;
    match loop
    case Gather(_) => GatherWrites(loop, at, n, p, order);
    case Scatter(_, _) => ScatterWrites(loop, at, n, p, order);
  }

  lemma {:induction false} GatherWrites(loop: Loop, at: State, n: nat, p: nat, order: seq<nat>)
    requires Inv(loop, at, n) && p < n && Enabled(loop, at, n, p) && KindOf(loop, at, n, p) == Writes
    requires Wrote(loop, at, n, order) && loop.Gather?
    ensures WriteEffect(loop, at, Move(loop, at, n, p), n, p, order)
  {
    hide GatherLoop.FlagIs, GatherLoop.Together, GatherLoop.Led;
    MoveKeepsInv(loop, at, n, p);
    GatherLoop.WritesInTime(loop.gather, at.g, p);
    GatherLoop.NoClash(loop.gather, at.g, p, 0);
  }

  lemma {:induction false} ScatterWrites(loop: Loop, at: State, n: nat, p: nat, order: seq<nat>)
    requires Inv(loop, at, n) && p < n && Enabled(loop, at, n, p) && KindOf(loop, at, n, p) == Writes
    requires Wrote(loop, at, n, order) && loop.Scatter?
    ensures WriteEffect(loop, at, Move(loop, at, n, p), n, p, order)
  {
    hide ScatterLoop.FlagIs, ScatterLoop.Together, ScatterLoop.Led, ScatterLoop.Fed, ScatterLoop.BufferIs,
      ScatterLoop.OutIs;
    MoveKeepsInv(loop, at, n, p);
    PacksInTime(loop.stripes, loop.root, at.s, p);
  }

  lemma {:induction false} PacksInTime(stripes: nat, root: Option<nat>, at: ScatterLoop.State<()>, p: nat)
    requires ScatterLoop.Inv(Control(stripes, root), [], at) && root == Some(p) && at.procs[p].stripe < stripes
    requires at.procs[p].step == ScatterLoop.PACK
    ensures ScatterLoop.Past(at.procs[0], ScatterLoop.EXCHANGE) == at.procs[p].stripe
    ensures !(at.procs[0].stripe < stripes && at.procs[0].step == ScatterLoop.EXCHANGE)
  {
    hide ScatterLoop.FlagIs, ScatterLoop.OutIs, ScatterLoop.After, ScatterLoop.Packed;
    var me, leader := at.procs[p], at.procs[0];
    assert ScatterLoop.InLoop(stripes, me) && ScatterLoop.InLoop(stripes, leader) && ScatterLoop.Led(me, leader);
    assert ScatterLoop.Fed(leader, me) && ScatterLoop.BufferIs(Control(stripes, root), [], at);
    assert ScatterLoop.Together(stripes, me, leader) && ScatterLoop.Together(stripes, leader, me);
  }

  /** A read: the exchange is over, and nobody has written the next stripe. */
  ghost predicate ReadEffect(loop: Loop, at: State, next: State, n: nat, p: nat, order: seq<nat>) {
    && Inv(loop, at, n) && Inv(loop, next, n) && p < n && Keeps(loop, at, next, n, p)
    && HasRead(loop, at, n, p) == StripeAt(at, p) && HasRead(loop, next, n, p) == StripeAt(at, p) + 1
    && Exchanged(loop, at, n) == StripeAt(at, p) + 1 && Wrote(loop, next, n, order) && order == []
    && !InExchange(loop, at, n) && !InExchange(loop, next, n)
  }

  lemma {:induction false} ReadStep(loop: Loop, at: State, n: nat, p: nat, order: seq<nat>)
    requires Inv(loop, at, n) && p < n && Enabled(loop, at, n, p) && KindOf(loop, at, n, p) == Reads
    requires Wrote(loop, at, n, order)
    ensures ReadEffect(loop, at, Move(loop, at, n, p), n, p, order)
  {
    hide GatherLoop.Inv, ScatterLoop.Inv, GatherLoop.Move, ScatterLoop.Move, ReadEffect;
    match loop
    case Gather(_) => GatherReads(loop, at, n, p, order);
    case Scatter(_, _) => ScatterReads(loop, at, n, p, order);
  }

  lemma {:induction false} GatherReads(loop: Loop, at: State, n: nat, p: nat, order: seq<nat>)
    requires Inv(loop, at, n) && p < n && Enabled(loop, at, n, p) && KindOf(loop, at, n, p) == Reads
    requires Wrote(loop, at, n, order) && loop.Gather?
    ensures ReadEffect(loop, at, Move(loop, at, n, p), n, p, order)
  {
    hide GatherLoop.FlagIs, GatherLoop.Together, GatherLoop.Led;
    MoveKeepsInv(loop, at, n, p);
    GatherLoop.ReadsWhole(loop.gather, at.g, p);
    GatherLoop.NoClash(loop.gather, at.g, p, 0);
    NobodyWrote(at.g, order, at.g.exchanged);
  }

  lemma {:induction false} ScatterReads(loop: Loop, at: State, n: nat, p: nat, order: seq<nat>)
    requires Inv(loop, at, n) && p < n && Enabled(loop, at, n, p) && KindOf(loop, at, n, p) == Reads
    requires Wrote(loop, at, n, order) && loop.Scatter?
    ensures ReadEffect(loop, at, Move(loop, at, n, p), n, p, order)
  {
    hide ScatterLoop.FlagIs, ScatterLoop.Together, ScatterLoop.Led, ScatterLoop.Fed, ScatterLoop.BufferIs,
      ScatterLoop.OutIs;
    MoveKeepsInv(loop, at, n, p);
    assert ScatterLoop.InLoop(loop.stripes, at.s.procs[p]);
    CopiesInTime(loop.stripes, loop.root, at.s, p);
  }

  lemma {:induction false} NobodyWrote(at: GatherLoop.State, order: seq<nat>, e: nat)
    requires GatherLoop.WritersOf(at, order, e)
    requires forall p {:trigger at.procs[p]} :: 0 <= p < |at.procs| ==> GatherLoop.Wrote(at.procs[p]) <= e
    ensures order == []
  {
    forall p: nat | p < |at.procs|
      ensures p !in order
    {
      assert GatherLoop.Wrote(at.procs[p]) <= e;
    }
    GatherLoop.FirstIsThere(order);
  }

  lemma {:induction false} CopiesInTime(stripes: nat, root: Option<nat>, at: ScatterLoop.State<()>, p: nat)
    requires ScatterLoop.Inv(Control(stripes, root), [], at) && p < |at.procs| && at.procs[p].stripe < stripes
    requires at.procs[p].step == ScatterLoop.COPY
    ensures ScatterLoop.Past(at.procs[0], ScatterLoop.EXCHANGE) == at.procs[p].stripe + 1
    ensures !(at.procs[0].stripe < stripes && at.procs[0].step == ScatterLoop.EXCHANGE)
    ensures root.Some? ==> ScatterLoop.Past(at.procs[root.value], ScatterLoop.PACK) == at.procs[p].stripe + 1
  {
    hide ScatterLoop.FlagIs, ScatterLoop.OutIs, ScatterLoop.After, ScatterLoop.Packed;
    var me, leader := at.procs[p], at.procs[0];
    assert ScatterLoop.InLoop(stripes, me) && ScatterLoop.InLoop(stripes, leader) && ScatterLoop.Led(me, leader);
    assert ScatterLoop.Together(stripes, me, leader) && ScatterLoop.Together(stripes, leader, me);
    if root.Some? {
      var r := at.procs[root.value];
      assert ScatterLoop.InLoop(stripes, r) && ScatterLoop.Fed(leader, r);
      assert ScatterLoop.Together(stripes, r, me) && ScatterLoop.Together(stripes, me, r);
    }
  }

  /** The end of the exchange: all who have to have written the stripe, and nobody the next. */
  lemma {:induction false} ExchangeStep(loop: Loop, at: State, n: nat, order: seq<nat>)
    requires Inv(loop, at, n) && n > 0 && Enabled(loop, at, n, 0) && InExchange(loop, at, n)
    requires Wrote(loop, at, n, order)
    ensures Exchanged(loop, at, n) == StripeAt(at, 0) && Complete(loop, n, order)
    ensures var next := Move(loop, at, n, 0);
      && Inv(loop, next, n) && Exchanged(loop, next, n) == Exchanged(loop, at, n) + 1 && Wrote(loop, next, n, [])
      && (forall q :: 0 <= q < n ==> HasRead(loop, next, n, q) == HasRead(loop, at, n, q))
      && !InExchange(loop, next, n)
  {
    hide GatherLoop.FlagIs, GatherLoop.Together, GatherLoop.Led, ScatterLoop.FlagIs, ScatterLoop.Together,
      ScatterLoop.Led, ScatterLoop.Fed, ScatterLoop.BufferIs, ScatterLoop.OutIs;
    MoveKeepsInv(loop, at, n, 0);
    match loop
    case Gather(gather) =>
      forall q | 0 <= q < n
        ensures GatherLoop.Wrote(at.g.procs[q]) == at.g.exchanged + 1
      {
        GatherLoop.ExchangesWhole(gather, at.g, q);
      }
    case Scatter(stripes, root) => ExchangesPacked(stripes, root, at.s);
  }

  lemma {:induction false} ExchangesPacked(stripes: nat, root: Option<nat>, at: ScatterLoop.State<()>)
    requires ScatterLoop.Inv(Control(stripes, root), [], at) && at.procs[0].stripe < stripes
    requires at.procs[0].step == ScatterLoop.EXCHANGE
    ensures root.Some? ==> ScatterLoop.Past(at.procs[root.value], ScatterLoop.PACK) == at.procs[0].stripe + 1
  {
    hide ScatterLoop.FlagIs, ScatterLoop.OutIs, ScatterLoop.After, ScatterLoop.Packed;
    if root.Some? {
      assert ScatterLoop.InLoop(stripes, at.procs[root.value]);
      assert ScatterLoop.Fed(at.procs[0], at.procs[root.value]);
      assert ScatterLoop.BufferIs(Control(stripes, root), [], at);
    }
  }

  // ---------------------------------------------------------------- beginning and end

  lemma {:induction false} InExchangeMeans(loop: Loop, at: State, n: nat)
    requires Inv(loop, at, n) && InExchange(loop, at, n)
    ensures Exchanged(loop, at, n) == StripeAt(at, 0) < StripesOf(loop)
  {
  }

  /** A process that is done has read all stripes; if all are done, all were exchanged. */
  lemma {:induction false} DoneMeans(loop: Loop, at: State, n: nat, p: nat)
    requires Inv(loop, at, n) && p < n && StripeAt(at, p) >= StripesOf(loop)
    ensures HasRead(loop, at, n, p) == StripesOf(loop)
    ensures p == 0 ==> Exchanged(loop, at, n) == StripesOf(loop) && !InExchange(loop, at, n)
  {
    hide GatherLoop.FlagIs, GatherLoop.Together, GatherLoop.Led, ScatterLoop.FlagIs, ScatterLoop.Together,
      ScatterLoop.Led, ScatterLoop.Fed, ScatterLoop.BufferIs, ScatterLoop.OutIs;
    match loop
    case Gather(gather) => assert GatherLoop.InLoop(gather, at.g.procs[p]);
    case Scatter(stripes, root) => assert ScatterLoop.InLoop(stripes, at.s.procs[p]);
  }

  /** Until all are done, somebody can go on. */
  lemma {:induction false} SomebodyMoves(loop: Loop, at: State, n: nat) returns (p: nat)
    requires Inv(loop, at, n) && !AllDone(loop, at, n)
    ensures Enabled(loop, at, n, p)
  {
    hide GatherLoop.Inv, ScatterLoop.Inv, GatherLoop.Enabled, ScatterLoop.Enabled;
    var x :| 0 <= x < n && StripeAt(at, x) < StripesOf(loop);
    match loop
    case Gather(gather) => p := GatherLoop.SomebodyMoves(gather, at.g);
    case Scatter(stripes, root) => p := ScatterLoop.SomebodyMoves(Control(stripes, root), [], at.s);
  }
}
