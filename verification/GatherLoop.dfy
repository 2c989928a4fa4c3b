/**
 The stripe loops of `ulm_allgathervMultipleStripes` and `ulm_gatherv` on one host, every
 interleaving of its processes: write, flag reset, barrier, exchange, flag set, read, barrier.
 In the first, the process that exchanges also resets the flag; in the second, the local root
 of the broadcast does, and of what the processes read only the root's matters.

 A barrier is an arrival and a departure, and a process departs only when all have arrived;
 that the counter barrier does this is shown in `CounterBarrier`.
 */
module GatherLoop {
  import opened Layout
  import opened Network
  import opened CopyOut

  // The steps of one stripe.
  const WRITE := 0
  const RESET := 1
  const ARRIVE_WRITTEN := 2
  const LEAVE_WRITTEN := 3
  const EXCHANGE := 4
  const SET := 5
  const SPIN := 6
  const READ := 7
  const ARRIVE_READ := 8
  const LEAVE_READ := 9

  /** Where a process is: in which stripe, and before which step. */
  datatype Pos = Pos(stripe: nat, step: nat)

  /**
   Process 0 is the one with `onHostProcID == 0`.  `wrote[p]` is the last stripe that process p has
   written, and `exchanged` the last that was exchanged, counted from 1.
   */
  datatype State = State(procs: seq<Pos>, flag: nat, wrote: seq<nat>, exchanged: nat)

  /** How many stripes there are, and which process resets the flag. */
  datatype Loop = Loop(stripes: nat, resetter: nat)

  predicate AtLeast(p: Pos, stripe: nat, step: nat) { p.stripe > stripe || (p.stripe == stripe && p.step >= step) }

  predicate AllAtLeast(st: State, stripe: nat, step: nat) {
    forall q :: 0 <= q < |st.procs| ==> AtLeast(st.procs[q], stripe, step)
  }

  predicate Enabled(loop: Loop, st: State, p: nat) {
    p < |st.procs| && st.procs[p].stripe < loop.stripes &&
    var me := st.procs[p];
    && (me.step == LEAVE_WRITTEN ==> AllAtLeast(st, me.stripe, LEAVE_WRITTEN))
    && (me.step == SPIN ==> st.flag == 1)
    && (me.step == LEAVE_READ && loop.stripes > 1 ==> AllAtLeast(st, me.stripe, LEAVE_READ))
  }

  function Advance(p: Pos): Pos { if p.step == LEAVE_READ then Pos(p.stripe + 1, 0) else Pos(p.stripe, p.step + 1) }

  function Move(loop: Loop, st: State, p: nat): State
    requires Enabled(loop, st, p) && |st.wrote| == |st.procs|
  {
    var me := st.procs[p];
    State(st.procs[p := Advance(me)],
          if p == loop.resetter && me.step == RESET then 0 else if p == 0 && me.step == SET then 1 else st.flag,
          if me.step == WRITE then st.wrote[p := me.stripe + 1] else st.wrote,
          if p == 0 && me.step == EXCHANGE then me.stripe + 1 else st.exchanged)
  }

  /** All processes at the beginning; the flag and the buffer may hold anything from before. */
  function Start(nProcs: nat, flag: nat): (st: State)
    ensures |st.procs| == |st.wrote| == nProcs
  {
    State(seq(nProcs, i => Pos(0, 0)), flag, seq(nProcs, i => 0), 0)
  }

  ghost function Exec(loop: Loop, st: State, sched: seq<nat>): (st': State)
    requires |st.wrote| == |st.procs|
    ensures |st'.wrote| == |st'.procs| == |st.procs|
  {
    if sched == [] then st
    else
      var before := Exec(loop, st, sched[..|sched| - 1]);
      var p := sched[|sched| - 1];
      if Enabled(loop, before, p) then Move(loop, before, p) else before
  }

  // ---------------------------------------------------------------- the invariant

  ghost predicate InLoop(loop: Loop, p: Pos) {
    p.step <= LEAVE_READ && (p.stripe < loop.stripes || p == Pos(loop.stripes, 0))
  }

  /** What q must have done for p to be where it is. */
  ghost predicate Together(loop: Loop, p: Pos, q: Pos) {
    && (p.step > LEAVE_WRITTEN ==> AtLeast(q, p.stripe, LEAVE_WRITTEN))
    && (p.stripe > 0 ==> AtLeast(q, p.stripe - 1, if loop.stripes > 1 then LEAVE_READ else LEAVE_WRITTEN))
  }

  /** The leader has set the flag before anybody reads. */
  ghost predicate Led(p: Pos, leader: Pos) {
    && (p.step > SPIN ==> AtLeast(leader, p.stripe, SPIN))
    && (p.stripe > 0 ==> AtLeast(leader, p.stripe - 1, SPIN))
  }

  function Resets(p: Pos): nat { if p.step > RESET then p.stripe + 1 else p.stripe }

  function Sets(p: Pos): nat { if p.step > SET then p.stripe + 1 else p.stripe }

  /** The flag is reset and set in turns. */
  ghost predicate FlagIs(leader: Pos, resetter: Pos, flag: nat) {
    && Sets(leader) <= Resets(resetter) <= Sets(leader) + 1
    && (Resets(resetter) > Sets(leader) ==> flag == 0) && (Resets(resetter) == Sets(leader) > 0 ==> flag == 1)
  }

  function Wrote(p: Pos): nat { if p.step > WRITE then p.stripe + 1 else p.stripe }

  function Exchanged(p: Pos): nat { if p.step > EXCHANGE then p.stripe + 1 else p.stripe }

  ghost predicate Inv(loop: Loop, st: State) {
    && loop.resetter < |st.procs| == |st.wrote|
    && FlagIs(st.procs[0], st.procs[loop.resetter], st.flag) && st.exchanged == Exchanged(st.procs[0])
    && (forall p {:trigger st.procs[p]} :: 0 <= p < |st.procs| ==>
          InLoop(loop, st.procs[p]) && Led(st.procs[p], st.procs[0]) && st.wrote[p] == Wrote(st.procs[p]))
    && (forall p, q {:trigger st.procs[p], st.procs[q]} :: 0 <= p < |st.procs| && 0 <= q < |st.procs| ==>
          Together(loop, st.procs[p], st.procs[q]))
  }

  lemma {:induction false} StaysTogether(loop: Loop, st: State, p: nat, a: nat, b: nat)
    requires Inv(loop, st) && Enabled(loop, st, p) && a < |st.procs| && b < |st.procs|
    ensures var next := Move(loop, st, p).procs; Together(loop, next[a], next[b])
  {
    assert Together(loop, st.procs[a], st.procs[b]);
    if a == p {
      assert InLoop(loop, st.procs[a]);
      assert AtLeast(st.procs[b], st.procs[b].stripe, st.procs[b].step);
      assert st.procs[p].step == LEAVE_WRITTEN ==> AtLeast(st.procs[b], st.procs[p].stripe, LEAVE_WRITTEN);
    }
  }

  lemma {:induction false} StaysLed(loop: Loop, st: State, p: nat, a: nat)
    requires Inv(loop, st) && Enabled(loop, st, p) && a < |st.procs|
    ensures var next := Move(loop, st, p); Led(next.procs[a], next.procs[0]) && InLoop(loop, next.procs[a])
    ensures Move(loop, st, p).wrote[a] == Wrote(Move(loop, st, p).procs[a])
  {
    assert Led(st.procs[a], st.procs[0]) && InLoop(loop, st.procs[a]);
    assert Together(loop, st.procs[a], st.procs[0]) && Together(loop, st.procs[a], st.procs[loop.resetter]);
    assert InLoop(loop, st.procs[loop.resetter]) && InLoop(loop, st.procs[0]);
  }

  lemma {:induction false} MoveKeepsInv(loop: Loop, st: State, p: nat)
    requires Inv(loop, st) && Enabled(loop, st, p)
    ensures Inv(loop, Move(loop, st, p))
  {
    hide Together, Led, Wrote;
    var next := Move(loop, st, p);
    FlagStays(loop, st, p);
    forall a | 0 <= a < |next.procs|
      ensures InLoop(loop, next.procs[a]) && Led(next.procs[a], next.procs[0])
      ensures next.wrote[a] == Wrote(next.procs[a])
    {
      StaysLed(loop, st, p, a);
    }
    forall a, b | 0 <= a < |next.procs| && 0 <= b < |next.procs|
      ensures Together(loop, next.procs[a], next.procs[b])
    {
      StaysTogether(loop, st, p, a, b);
    }
  }

  lemma {:induction false} FlagStays(loop: Loop, st: State, p: nat)
    requires Inv(loop, st) && Enabled(loop, st, p)
    ensures var next := Move(loop, st, p);
      FlagIs(next.procs[0], next.procs[loop.resetter], next.flag) && next.exchanged == Exchanged(next.procs[0])
  {
    var leader, resetter := st.procs[0], st.procs[loop.resetter];
    assert InLoop(loop, leader) && InLoop(loop, resetter);
    assert Together(loop, leader, resetter) && Together(loop, resetter, leader);
  }

  lemma {:induction false} ReachableInv(loop: Loop, nProcs: nat, flag: nat, sched: seq<nat>)
    requires loop.resetter < nProcs
    ensures Inv(loop, Exec(loop, Start(nProcs, flag), sched))
    decreases |sched|
  {
    hide Inv, Enabled, Move, Start;
    if sched == [] {
      StartInv(loop, nProcs, flag);
    } else {
      ReachableInv(loop, nProcs, flag, sched[..|sched| - 1]);
      var before := Exec(loop, Start(nProcs, flag), sched[..|sched| - 1]);
      if Enabled(loop, before, sched[|sched| - 1]) {
        MoveKeepsInv(loop, before, sched[|sched| - 1]);
      }
    }
  }

  lemma {:induction false} StartInv(loop: Loop, nProcs: nat, flag: nat)
    requires loop.resetter < nProcs
    ensures Inv(loop, Start(nProcs, flag))
  {
  }

  // ---------------------------------------------------------------- safety

  ghost predicate At(loop: Loop, st: State, p: nat, step: nat) {
    p < |st.procs| && st.procs[p].stripe < loop.stripes && st.procs[p].step == step
  }

  /** The whole of stripe s is in the buffer: written by everybody, exchanged, and nothing of the next. */
  ghost predicate BufferHolds(st: State, s: nat) {
    st.exchanged == s + 1 && forall q :: 0 <= q < |st.wrote| ==> st.wrote[q] == s + 1
  }

  /** Two processes that are at the buffer at the same time do not disturb each other. */
  lemma {:induction false} NoClash(loop: Loop, st: State, p: nat, q: nat)
    requires Inv(loop, st) && p < |st.procs| && q < |st.procs|
    requires At(loop, st, p, READ) || At(loop, st, p, WRITE) || (p == 0 && At(loop, st, 0, EXCHANGE))
    ensures At(loop, st, p, READ) ==> !At(loop, st, q, WRITE) && !At(loop, st, 0, EXCHANGE)
    ensures At(loop, st, p, WRITE) ==> !At(loop, st, q, READ) && !At(loop, st, 0, EXCHANGE)
    ensures p == 0 && At(loop, st, 0, EXCHANGE) ==> !At(loop, st, q, READ) && !At(loop, st, q, WRITE)
  {
    var a, b, l := st.procs[p], st.procs[q], st.procs[0];
    assert Together(loop, a, b) && Together(loop, b, a);
    assert Together(loop, a, l) && Together(loop, l, a) && Together(loop, b, l) &&
      Together(loop, l, b);
    assert Led(a, l) && Led(b, l);
    assert InLoop(loop, a) && InLoop(loop, b) && InLoop(loop, l);
  }

  /**
   In every run, a process that reads stripe s finds all of stripe s; nobody writes or
   exchanges while somebody reads, and nobody reads or writes during the exchange.
   */
  lemma {:induction false} StripesAreSafe(loop: Loop, nProcs: nat, flag: nat, sched: seq<nat>, p: nat)
    requires p < nProcs && loop.resetter < nProcs
    ensures var st := Exec(loop, Start(nProcs, flag), sched);
      && |st.procs| == nProcs
      && (At(loop, st, p, READ) ==> BufferHolds(st, st.procs[p].stripe))
      && (At(loop, st, p, READ) ==> forall q :: 0 <= q < nProcs ==> !At(loop, st, q, WRITE))
      && (At(loop, st, p, READ) ==> !At(loop, st, 0, EXCHANGE))
      && (At(loop, st, 0, EXCHANGE) ==> !At(loop, st, p, READ) && !At(loop, st, p, WRITE))
  {
    hide Inv, Start, BufferHolds, At;
    ReachableInv(loop, nProcs, flag, sched);
    var st := Exec(loop, Start(nProcs, flag), sched);
    if At(loop, st, p, READ) {
      ReadsWhole(loop, st, p);
      forall q | 0 <= q < nProcs
        ensures !At(loop, st, q, WRITE) && !At(loop, st, 0, EXCHANGE)
      {
        NoClash(loop, st, p, q);
      }
    }
    if At(loop, st, 0, EXCHANGE) {
      NoClash(loop, st, 0, p);
    }
  }

  lemma {:induction false} ReadsWhole(loop: Loop, st: State, p: nat)
    requires Inv(loop, st) && At(loop, st, p, READ)
    ensures BufferHolds(st, st.procs[p].stripe)
  {
    var me, leader := st.procs[p], st.procs[0];
    assert Led(me, leader) && InLoop(loop, leader) && Together(loop, leader, me);
    forall q | 0 <= q < |st.wrote|
      ensures st.wrote[q] == me.stripe + 1
    {
      var other := st.procs[q];
      assert Together(loop, me, other) && Together(loop, other, me) && InLoop(loop, other);
    }
  }

  /** What the leader sends out in the exchange of stripe s is what everybody has written of it. */
  lemma {:induction false} ExchangesWhole(loop: Loop, st: State, q: nat)
    requires Inv(loop, st) && At(loop, st, 0, EXCHANGE) && q < |st.procs|
    ensures st.wrote[q] == st.procs[0].stripe + 1
  {
    var leader, other := st.procs[0], st.procs[q];
    assert Together(loop, leader, other) && Together(loop, other, leader) && InLoop(loop, other);
    assert Led(other, leader);
  }

  // ---------------------------------------------------------------- progress

  ghost predicate AllDone(loop: Loop, st: State) {
    forall p :: 0 <= p < |st.procs| ==> st.procs[p].stripe >= loop.stripes
  }

  function Key(p: Pos): nat { 10 * p.stripe + p.step }

  /** The process that is furthest behind can always go on. */
  lemma {:induction false} LastCanMove(loop: Loop, st: State, p: nat)
    requires Inv(loop, st) && p < |st.procs| && st.procs[p].stripe < loop.stripes
    requires forall q :: 0 <= q < |st.procs| ==> Key(st.procs[p]) <= Key(st.procs[q])
    ensures Enabled(loop, st, p)
  {
    var me := st.procs[p];
    forall q | 0 <= q < |st.procs|
      ensures AtLeast(st.procs[q], me.stripe, me.step)
    {
      assert InLoop(loop, st.procs[q]) && InLoop(loop, me);
      assert Key(me) <= Key(st.procs[q]);
    }
    assert AtLeast(st.procs[0], me.stripe, me.step);
    assert Together(loop, st.procs[0], me) && InLoop(loop, st.procs[0]);
    var resetter := st.procs[loop.resetter];
    assert Together(loop, resetter, me) && InLoop(loop, resetter) && AtLeast(resetter, me.stripe, me.step);
  }

  /** Until all are done, somebody can go on. */
  lemma {:induction false} SomebodyMoves(loop: Loop, st: State) returns (p: nat)
    requires Inv(loop, st) && !AllDone(loop, st)
    ensures Enabled(loop, st, p)
  {
    hide Inv, Enabled;
    var n := |st.procs|;
    var keys := seq(n, q requires 0 <= q < n => Key(st.procs[q]));
    var open := set q: nat | q < n && keys[q] >= 0;
    var u :| 0 <= u < n && st.procs[u].stripe < loop.stripes;
    assert u in open;
    p := PickLowest(keys, open);
    forall q | 0 <= q < n
      ensures Key(st.procs[p]) <= Key(st.procs[q])
    {
      assert q in open && keys[q] == Key(st.procs[q]);
    }
    LowestOpen(loop, st, p, u);
    LastCanMove(loop, st, p);
  }

  /** No run gets stuck. */
  lemma {:induction false} NeverStuck(loop: Loop, nProcs: nat, flag: nat, sched: seq<nat>) returns (p: nat)
    requires loop.resetter < nProcs && !AllDone(loop, Exec(loop, Start(nProcs, flag), sched))
    ensures Enabled(loop, Exec(loop, Start(nProcs, flag), sched), p)
  {
    hide Inv, Enabled, Start, Exec;
    ReachableInv(loop, nProcs, flag, sched);
    p := SomebodyMoves(loop, Exec(loop, Start(nProcs, flag), sched));
  }

  lemma {:induction false} LowestOpen(loop: Loop, st: State, p: nat, u: nat)
    requires Inv(loop, st) && p < |st.procs| && u < |st.procs| && st.procs[u].stripe < loop.stripes
    requires Key(st.procs[p]) <= Key(st.procs[u])
    ensures st.procs[p].stripe < loop.stripes
  {
    assert InLoop(loop, st.procs[u]) && InLoop(loop, st.procs[p]);
  }

  // ---------------------------------------------------------------- the bytes

  /**
   In stripe s process p writes `pieces[s][p]` at `offs[s][p]` of the shared buffer;
   `exchange(s, buf)` is what the exchange makes of the buffer.
   */
  datatype Job<!T> = Job(resetter: nat, offs: seq<seq<nat>>, pieces: seq<seq<seq<T>>>,
                         exchange: (nat, seq<T>) -> seq<T>)

  ghost predicate ValidJob<T>(job: Job<T>, nProcs: nat) {
    && job.resetter < nProcs && |job.offs| == |job.pieces|
    && forall s :: 0 <= s < |job.pieces| ==> |job.offs[s]| == |job.pieces[s]| == nProcs
  }

  function LoopOf<T>(job: Job<T>): Loop { Loop(|job.pieces|, job.resetter) }

  /**
   `at` is where the processes are, `writes[s]` lists them in the order in which they have
   written stripe s, and `out[p]` is what process p has read, stripe by stripe.
   */
  datatype Data<T> = Data(at: State, buf: seq<T>, writes: seq<seq<nat>>, out: seq<seq<seq<T>>>)

  ghost predicate Shaped<T>(job: Job<T>, d: Data<T>) {
    && ValidJob(job, |d.at.procs|) && |d.at.wrote| == |d.out| == |d.at.procs| && |d.writes| == |job.pieces|
  }

  ghost function Step<T>(job: Job<T>, d: Data<T>, p: nat): (d': Data<T>)
    requires Shaped(job, d) && Enabled(LoopOf(job), d.at, p)
    ensures Shaped(job, d')
  {
    var me, s := d.at.procs[p], d.at.procs[p].stripe;
    Data(Move(LoopOf(job), d.at, p),
         if me.step == WRITE then Write(d.buf, job.offs[s][p], job.pieces[s][p])
         else if p == 0 && me.step == EXCHANGE then job.exchange(s, d.buf) else d.buf,
         if me.step == WRITE then d.writes[s := d.writes[s] + [p]] else d.writes,
         if me.step == READ then d.out[p := d.out[p] + [d.buf]] else d.out)
  }

  ghost function Begin<T>(job: Job<T>, nProcs: nat, flag: nat, buf: seq<T>): (d: Data<T>)
    requires ValidJob(job, nProcs)
    ensures Shaped(job, d)
  {
    Data(Start(nProcs, flag), buf, seq(|job.pieces|, s => []), seq(nProcs, p => []))
  }

  ghost function Run<T>(job: Job<T>, d: Data<T>, sched: seq<nat>): (d': Data<T>)
    requires Shaped(job, d)
    ensures Shaped(job, d') && d'.at == Exec(LoopOf(job), d.at, sched)
  {
    if sched == [] then d
    else
      var before := Run(job, d, sched[..|sched| - 1]);
      var p := sched[|sched| - 1];
      if Enabled(LoopOf(job), before.at, p) then Step(job, before, p) else before
  }

  /** The buffer after the first s stripes, if in each all write, in the given order, and then exchange. */
  ghost function After<T>(job: Job<T>, nProcs: nat, buf: seq<T>, writes: seq<seq<nat>>, s: nat): seq<T>
    requires ValidJob(job, nProcs) && |writes| == |job.pieces| && s <= |writes|
    requires forall i :: 0 <= i < |writes| ==> InRange(writes[i], nProcs)
    decreases s, 0
  {
    if s == 0 then buf else job.exchange(s - 1, Filling(job, nProcs, buf, writes, s - 1))
  }

  ghost function Filling<T>(job: Job<T>, nProcs: nat, buf: seq<T>, writes: seq<seq<nat>>, s: nat): seq<T>
    requires ValidJob(job, nProcs) && |writes| == |job.pieces| && s <= |writes|
    requires forall i :: 0 <= i < |writes| ==> InRange(writes[i], nProcs)
    decreases s, 1
  {
    var start := After(job, nProcs, buf, writes, s);
    if s < |writes| then Placed(start, job.offs[s], job.pieces[s], writes[s]) else start
  }

  function HasRead(p: Pos): nat { if p.step > READ then p.stripe + 1 else p.stripe }

  /** Who has written stripe s. */
  ghost predicate WritersOf(at: State, writes: seq<nat>, s: nat) {
    && NoDuplicates(writes) && InRange(writes, |at.procs|)
    && forall p: nat :: p < |at.procs| ==> (p in writes <==> Wrote(at.procs[p]) > s)
  }

  ghost predicate OutIs<T>(job: Job<T>, nProcs: nat, buf: seq<T>, writes: seq<seq<nat>>, me: Pos, out: seq<seq<T>>)
    requires ValidJob(job, nProcs) && |writes| == |job.pieces|
    requires forall i :: 0 <= i < |writes| ==> InRange(writes[i], nProcs)
  {
    |out| == HasRead(me) <= |writes| && forall s :: 0 <= s < |out| ==> out[s] == After(job, nProcs, buf, writes, s + 1)
  }

  ghost predicate DataInv<T>(job: Job<T>, buf: seq<T>, d: Data<T>)
    requires Shaped(job, d)
  {
    var n := |d.at.procs|;
    && Inv(LoopOf(job), d.at) && d.at.exchanged <= |job.pieces|
    && (forall s :: 0 <= s < |d.writes| ==> WritersOf(d.at, d.writes[s], s))
    && (forall s :: 0 <= s < |d.writes| ==> InRange(d.writes[s], n))
    && d.buf == Filling(job, n, buf, d.writes, d.at.exchanged)
    && forall p :: 0 <= p < n ==> OutIs(job, n, buf, d.writes, d.at.procs[p], d.out[p])
  }

  lemma {:induction false} BeginInv<T>(job: Job<T>, nProcs: nat, flag: nat, buf: seq<T>)
    requires ValidJob(job, nProcs)
    ensures DataInv(job, buf, Begin(job, nProcs, flag, buf))
  {
    StartInv(LoopOf(job), nProcs, flag);
    var d := Begin(job, nProcs, flag, buf);
    assert forall s :: 0 <= s < |d.writes| ==> d.writes[s] == [];
  }

  /** What the stripes before s make of the buffer does not depend on who writes in stripe s. */
  lemma {:induction false} AfterSame<T>(job: Job<T>, nProcs: nat, buf: seq<T>, a: seq<seq<nat>>, b: seq<seq<nat>>,
                                        s: nat)
    requires ValidJob(job, nProcs) && |a| == |b| == |job.pieces| && s <= |a| && a[..s] == b[..s]
    requires forall i :: 0 <= i < |a| ==> InRange(a[i], nProcs)
    requires forall i :: 0 <= i < |b| ==> InRange(b[i], nProcs)
    ensures After(job, nProcs, buf, a, s) == After(job, nProcs, buf, b, s)
    decreases s
  {
    if s > 0 {
      assert a[s - 1] == a[..s][s - 1] == b[..s][s - 1] == b[s - 1];
      assert a[..s][..s - 1] == a[..s - 1] && b[..s][..s - 1] == b[..s - 1];
      AfterSame(job, nProcs, buf, a, b, s - 1);
    }
  }

  /** Nobody has read more than was exchanged. */
  lemma {:induction false} ReadBounded(loop: Loop, st: State, p: nat)
    requires Inv(loop, st) && p < |st.procs|
    ensures HasRead(st.procs[p]) <= st.exchanged <= loop.stripes
  {
    assert Led(st.procs[p], st.procs[0]) && InLoop(loop, st.procs[0]) && InLoop(loop, st.procs[p]);
  }

  /** A process writes a stripe between the exchange before it and its own. */
  lemma {:induction false} WritesInTime(loop: Loop, st: State, p: nat)
    requires Inv(loop, st) && At(loop, st, p, WRITE)
    ensures st.exchanged == st.procs[p].stripe
  {
    var me, leader := st.procs[p], st.procs[0];
    assert Together(loop, me, leader) && Together(loop, leader, me);
    assert InLoop(loop, me) && InLoop(loop, leader);
  }

  lemma {:induction false} NoWriters<T>(job: Job<T>, d: Data<T>, buf: seq<T>, s: nat)
    requires Shaped(job, d) && DataInv(job, buf, d) && s < |d.writes|
    requires forall q :: 0 <= q < |d.at.procs| ==> d.at.wrote[q] <= s
    ensures d.writes[s] == []
  {
    hide OutIs, Filling, Together, Led;
    assert WritersOf(d.at, d.writes[s], s);
    forall p: nat | p < |d.at.procs|
      ensures p !in d.writes[s]
    {
      assert d.at.wrote[p] == Wrote(d.at.procs[p]);
    }
    FirstIsThere(d.writes[s]);
  }

  lemma {:induction false} FirstIsThere(s: seq<nat>)
    ensures s == [] || s[0] in s
  {
  }

  lemma {:induction false} NotWrittenYet<T>(job: Job<T>, d: Data<T>, buf: seq<T>, p: nat)
    requires Shaped(job, d) && DataInv(job, buf, d) && At(LoopOf(job), d.at, p, WRITE)
    ensures p !in d.writes[d.at.procs[p].stripe]
  {
    hide OutIs, Filling, Together, Led;
    var s := d.at.procs[p].stripe;
    assert WritersOf(d.at, d.writes[s], s);
  }

  /** The others' lists of writers stay. */
  lemma {:induction false} WritersStay<T>(job: Job<T>, d: Data<T>, buf: seq<T>, p: nat, s: nat)
    requires Shaped(job, d) && DataInv(job, buf, d) && Enabled(LoopOf(job), d.at, p) && s < |d.writes|
    ensures WritersOf(Step(job, d, p).at, Step(job, d, p).writes[s], s)
  {
    hide OutIs, Filling, Together, Led, FlagIs;
    var me, d' := d.at.procs[p], Step(job, d, p);
    assert WritersOf(d.at, d.writes[s], s) && InLoop(LoopOf(job), me);
    if me.step == WRITE && me.stripe == s {
      NotWrittenYet(job, d, buf, p);
    }
  }

  lemma {:induction false} BufferStays<T>(job: Job<T>, d: Data<T>, buf: seq<T>, p: nat)
    requires Shaped(job, d) && DataInv(job, buf, d) && Enabled(LoopOf(job), d.at, p)
    requires forall s :: 0 <= s < |d.writes| ==> InRange(Step(job, d, p).writes[s], |d.at.procs|)
    ensures var d' := Step(job, d, p);
      d'.at.exchanged <= |job.pieces| && d'.buf == Filling(job, |d.at.procs|, buf, d'.writes, d'.at.exchanged)
  {
    hide OutIs, Together, Led, FlagIs, WritersOf, Write;
    var n, me, d' := |d.at.procs|, d.at.procs[p], Step(job, d, p);
    if me.step == WRITE {
      WritesInTime(LoopOf(job), d.at, p);
      var s := me.stripe;
      assert d'.writes[s][..|d.writes[s]|] == d.writes[s];
      AfterSame(job, n, buf, d.writes, d'.writes, s);
    } else if p == 0 && me.step == EXCHANGE {
      forall q | 0 <= q < n
        ensures d.at.wrote[q] <= me.stripe + 1
      {
        ExchangesWhole(LoopOf(job), d.at, q);
      }
      if me.stripe + 1 < |job.pieces| {
        NoWriters(job, d, buf, me.stripe + 1);
      }
    }
  }

  lemma {:induction false} ReadsAfter<T>(job: Job<T>, d: Data<T>, buf: seq<T>, p: nat)
    requires Shaped(job, d) && DataInv(job, buf, d) && At(LoopOf(job), d.at, p, READ)
    ensures d.buf == After(job, |d.at.procs|, buf, d.writes, d.at.procs[p].stripe + 1)
  {
    hide OutIs, Together, Led, FlagIs, WritersOf;
    var s := d.at.procs[p].stripe;
    ReadsWhole(LoopOf(job), d.at, p);
    if s + 1 < |job.pieces| {
      NoWriters(job, d, buf, s + 1);
    }
  }

  lemma {:induction false} OutStays<T>(job: Job<T>, d: Data<T>, buf: seq<T>, p: nat, q: nat)
    requires Shaped(job, d) && DataInv(job, buf, d) && Enabled(LoopOf(job), d.at, p) && q < |d.at.procs|
    requires forall s :: 0 <= s < |d.writes| ==> InRange(Step(job, d, p).writes[s], |d.at.procs|)
    ensures var d' := Step(job, d, p); OutIs(job, |d.at.procs|, buf, d'.writes, d'.at.procs[q], d'.out[q])
  {
    hide Together, Led, FlagIs, WritersOf, After, Filling, Write;
    var n, me, d' := |d.at.procs|, d.at.procs[p], Step(job, d, p);
    assert OutIs(job, n, buf, d.writes, d.at.procs[q], d.out[q]) && InLoop(LoopOf(job), me);
    ReadBounded(LoopOf(job), d.at, q);
    if me.step == WRITE {
      WritesInTime(LoopOf(job), d.at, p);
      forall s {:trigger d.out[q][s]} | 0 <= s < |d.out[q]|
        ensures After(job, n, buf, d'.writes, s + 1) == After(job, n, buf, d.writes, s + 1)
      {
        AfterSame(job, n, buf, d.writes, d'.writes, s + 1);
      }
    } else if me.step == READ {
      ReadsAfter(job, d, buf, p);
    }
  }

  lemma {:induction false} StepKeepsData<T>(job: Job<T>, d: Data<T>, buf: seq<T>, p: nat)
    requires Shaped(job, d) && DataInv(job, buf, d) && Enabled(LoopOf(job), d.at, p)
    ensures DataInv(job, buf, Step(job, d, p))
  {
    hide Inv, OutIs, WritersOf, Filling, Enabled, Step;
    var d' := Step(job, d, p);
    MoveKeepsInv(LoopOf(job), d.at, p);
    StepShape(job, d, p);
    forall s | 0 <= s < |d.writes|
      ensures WritersOf(d'.at, d'.writes[s], s) && InRange(d'.writes[s], |d.at.procs|)
    {
      WritersStay(job, d, buf, p, s);
      WritersRange(d'.at, d'.writes[s], s);
    }
    BufferStays(job, d, buf, p);
    forall q | 0 <= q < |d.at.procs|
      ensures OutIs(job, |d.at.procs|, buf, d'.writes, d'.at.procs[q], d'.out[q])
    {
      OutStays(job, d, buf, p, q);
    }
  }

  lemma {:induction false} StepShape<T>(job: Job<T>, d: Data<T>, p: nat)
    requires Shaped(job, d) && Enabled(LoopOf(job), d.at, p)
    ensures Step(job, d, p).at == Move(LoopOf(job), d.at, p) && |Step(job, d, p).at.procs| == |d.at.procs|
  {
  }

  lemma {:induction false} WritersRange(at: State, writes: seq<nat>, s: nat)
    requires WritersOf(at, writes, s)
    ensures InRange(writes, |at.procs|)
  {
  }

  lemma {:induction false} RunKeepsData<T>(job: Job<T>, nProcs: nat, flag: nat, buf: seq<T>, sched: seq<nat>)
    requires ValidJob(job, nProcs)
    ensures DataInv(job, buf, Run(job, Begin(job, nProcs, flag, buf), sched))
    ensures |Run(job, Begin(job, nProcs, flag, buf), sched).at.procs| == nProcs
    decreases |sched|
  {
    hide DataInv, Enabled, Step, Start, Begin;
    if sched == [] {
      BeginInv(job, nProcs, flag, buf);
      BeginShape(job, nProcs, flag, buf);
    } else {
      var before := sched[..|sched| - 1];
      RunKeepsData(job, nProcs, flag, buf, before);
      var d := Run(job, Begin(job, nProcs, flag, buf), before);
      if Enabled(LoopOf(job), d.at, sched[|sched| - 1]) {
        StepKeepsData(job, d, buf, sched[|sched| - 1]);
        StepShape(job, d, sched[|sched| - 1]);
      }
    }
  }

  lemma {:induction false} BeginShape<T>(job: Job<T>, nProcs: nat, flag: nat, buf: seq<T>)
    requires ValidJob(job, nProcs)
    ensures |Begin(job, nProcs, flag, buf).at.procs| == nProcs
  {
  }

  /**
   Whatever the interleaving, the processes behave as if in every stripe first all wrote, in
   some order and each once, then the leader exchanged, and then all read: process p has read,
   stripe by stripe, what that leaves in the buffer, and in the end of all stripes.
   */
  lemma {:induction false} StripesAreSteps<T>(job: Job<T>, nProcs: nat, flag: nat, buf: seq<T>, sched: seq<nat>)
    requires ValidJob(job, nProcs)
    ensures var d := Run(job, Begin(job, nProcs, flag, buf), sched);
      && (forall s :: 0 <= s < |d.writes| ==> InRange(d.writes[s], nProcs) && NoDuplicates(d.writes[s]))
      && (forall p :: 0 <= p < nProcs ==> OutIs(job, nProcs, buf, d.writes, d.at.procs[p], d.out[p]))
      && (AllDone(LoopOf(job), d.at) ==>
            && (forall s :: 0 <= s < |d.writes| ==> IsPermutation(d.writes[s], nProcs))
            && (forall p :: 0 <= p < nProcs ==> |d.out[p]| == |job.pieces|))
  {
    hide Run, Begin, Inv, OutIs, Filling, After;
    RunKeepsData(job, nProcs, flag, buf, sched);
    var d := Run(job, Begin(job, nProcs, flag, buf), sched);
    assert forall s :: 0 <= s < |d.writes| ==> WritersOf(d.at, d.writes[s], s);
    if AllDone(LoopOf(job), d.at) {
      forall p | 0 <= p < nProcs
        ensures d.at.procs[p] == Pos(|job.pieces|, 0) && |d.out[p]| == |job.pieces|
      {
        DoneReads(job, d, buf, p);
      }
    }
  }

  lemma {:induction false} DoneReads<T>(job: Job<T>, d: Data<T>, buf: seq<T>, p: nat)
    requires Shaped(job, d) && DataInv(job, buf, d) && AllDone(LoopOf(job), d.at) && p < |d.at.procs|
    ensures d.at.procs[p] == Pos(|job.pieces|, 0) && |d.out[p]| == |job.pieces|
  {
    hide Filling, After, Together, Led, WritersOf;
    assert InLoop(LoopOf(job), d.at.procs[p]);
    assert OutIs(job, |d.at.procs|, buf, d.writes, d.at.procs[p], d.out[p]);
  }
}
