/**
 The stripe loop of `ulm_scatter` on one host, every interleaving of its processes.  On the
 root's host the root packs and sets the flag to 1, and local rank 0 waits for that; local rank
 0 exchanges and sets the flag to 2; all wait for the 2 and copy.  Between the stripes all meet,
 every process sets the flag to 0, and all meet again.
 */
module ScatterLoop {
  import opened Network

  // The steps of one stripe.
  const PACK := 0
  const ANNOUNCE := 1
  const AWAIT_PACKED := 2
  const EXCHANGE := 3
  const SET := 4
  const SPIN := 5
  const COPY := 6
  const ARRIVE_COPIED := 7
  const LEAVE_COPIED := 8
  const RESET := 9
  const ARRIVE_RESET := 10
  const LEAVE_RESET := 11

  datatype Pos = Pos(stripe: nat, step: nat)

  /** The root, if it is on this host, packs by `pack(s, buf)`; local rank 0 exchanges by `exchange(s, buf)`. */
  datatype Job<!T> = Job(stripes: nat, root: Option<nat>, pack: (nat, seq<T>) -> seq<T>,
                         exchange: (nat, seq<T>) -> seq<T>)

  /** `out[p]` is what process p has found in the shared buffer, stripe by stripe. */
  datatype State<T> = State(procs: seq<Pos>, flag: nat, buf: seq<T>, out: seq<seq<seq<T>>>)

  predicate AtLeast(p: Pos, stripe: nat, step: nat) { p.stripe > stripe || (p.stripe == stripe && p.step >= step) }

  predicate AllAtLeast<T>(st: State<T>, stripe: nat, step: nat) {
    forall q :: 0 <= q < |st.procs| ==> AtLeast(st.procs[q], stripe, step)
  }

  predicate Enabled<T>(job: Job<T>, st: State<T>, p: nat) {
    p < |st.procs| && st.procs[p].stripe < job.stripes &&
    var me := st.procs[p];
    && (me.step == AWAIT_PACKED && p == 0 && job.root.Some? ==> st.flag >= 1)
    && (me.step == SPIN ==> st.flag >= 2)
    && (me.step == LEAVE_COPIED ==> AllAtLeast(st, me.stripe, LEAVE_COPIED))
    && (me.step == LEAVE_RESET ==> AllAtLeast(st, me.stripe, LEAVE_RESET))
  }

  /** With one stripe there are no barriers and no reset. */
  function Advance(p: Pos, stripes: nat): Pos {
    if p.step == LEAVE_RESET || (p.step == COPY && stripes == 1) then Pos(p.stripe + 1, 0)
    else Pos(p.stripe, p.step + 1)
  }

  function Move<T>(job: Job<T>, st: State<T>, p: nat): State<T>
    requires Enabled(job, st, p) && |st.out| == |st.procs|
  {
    var me := st.procs[p];
    State(st.procs[p := Advance(me, job.stripes)],
          if me.step == RESET then 0
          else if job.root == Some(p) && me.step == ANNOUNCE then 1
          else if p == 0 && me.step == SET then 2 else st.flag,
          if job.root == Some(p) && me.step == PACK then job.pack(me.stripe, st.buf)
          else if p == 0 && me.step == EXCHANGE then job.exchange(me.stripe, st.buf) else st.buf,
          if me.step == COPY then st.out[p := st.out[p] + [st.buf]] else st.out)
  }

  /** A descriptor comes with its flag at 0. */
  function Start<T>(nProcs: nat, buf: seq<T>): (st: State<T>)
    ensures |st.procs| == |st.out| == nProcs
  {
    State(seq(nProcs, i => Pos(0, 0)), 0, buf, seq(nProcs, i => []))
  }

  ghost function Exec<T>(job: Job<T>, st: State<T>, sched: seq<nat>): (st': State<T>)
    requires |st.out| == |st.procs|
    ensures |st'.out| == |st'.procs| == |st.procs|
  {
    if sched == [] then st
    else
      var before := Exec(job, st, sched[..|sched| - 1]);
      var p := sched[|sched| - 1];
      if Enabled(job, before, p) then Move(job, before, p) else before
  }

  // ---------------------------------------------------------------- the invariant

  ghost predicate InLoop(stripes: nat, p: Pos) {
    p.step <= (if stripes == 1 then COPY else LEAVE_RESET) && (p.stripe < stripes || p == Pos(stripes, 0))
  }

  /** What q must have done for p to be where it is. */
  ghost predicate Together(stripes: nat, p: Pos, q: Pos) {
    && (p.step > LEAVE_COPIED ==> AtLeast(q, p.stripe, LEAVE_COPIED))
    && (p.stripe > 0 && stripes > 1 ==> AtLeast(q, p.stripe - 1, LEAVE_RESET))
  }

  /** Nobody copies before local rank 0 has set the flag. */
  ghost predicate Led(p: Pos, leader: Pos) {
    && (p.step > SPIN ==> AtLeast(leader, p.stripe, SPIN))
    && (p.stripe > 0 ==> AtLeast(leader, p.stripe - 1, SPIN))
  }

  /** Local rank 0 does not exchange before the root has announced. */
  ghost predicate Fed(leader: Pos, root: Pos) {
    && (leader.step > AWAIT_PACKED ==> AtLeast(root, leader.stripe, AWAIT_PACKED))
    && (leader.stripe > 0 ==> AtLeast(root, leader.stripe - 1, AWAIT_PACKED))
  }

  /** How often a process has got past a step. */
  function Past(p: Pos, step: nat): nat { if p.step > step then p.stripe + 1 else p.stripe }

  /** Has somebody reset the flag after stripe s? */
  ghost predicate WasReset<T>(job: Job<T>, st: State<T>, s: nat) {
    job.stripes > 1 && exists q :: 0 <= q < |st.procs| && AtLeast(st.procs[q], s, ARRIVE_RESET)
  }

  ghost predicate Valid<T>(job: Job<T>, st: State<T>) {
    0 < |st.procs| == |st.out| && (job.root.Some? ==> job.root.value < |st.procs|)
  }

  /** The root's announcement that local rank 0 has not answered yet. */
  ghost predicate Announced<T>(job: Job<T>, st: State<T>)
    requires Valid(job, st)
  {
    job.root.Some? && Past(st.procs[job.root.value], ANNOUNCE) == Past(st.procs[0], SET) + 1
  }

  ghost predicate FlagIs<T>(job: Job<T>, st: State<T>)
    requires Valid(job, st)
  {
    var sets := Past(st.procs[0], SET);
    && (job.root.Some? ==> sets <= Past(st.procs[job.root.value], ANNOUNCE) <= sets + 1)
    && st.flag == (if Announced(job, st) then 1 else if sets == 0 || WasReset(job, st, sets - 1) then 0 else 2)
  }

  /** The buffer after the first s stripes. */
  ghost function After<T>(job: Job<T>, buf: seq<T>, s: nat): seq<T> {
    if s == 0 then buf else job.exchange(s - 1, Packed(job, s - 1, After(job, buf, s - 1)))
  }

  ghost function Packed<T>(job: Job<T>, s: nat, buf: seq<T>): seq<T> {
    if job.root.Some? then job.pack(s, buf) else buf
  }

  ghost predicate BufferIs<T>(job: Job<T>, buf: seq<T>, st: State<T>)
    requires Valid(job, st)
  {
    var done := Past(st.procs[0], EXCHANGE);
    && (job.root.Some? ==> done <= Past(st.procs[job.root.value], PACK) <= done + 1)
    && st.buf == if job.root.Some? && Past(st.procs[job.root.value], PACK) == done + 1
                 then Packed(job, done, After(job, buf, done)) else After(job, buf, done)
  }

  ghost predicate OutIs<T>(job: Job<T>, buf: seq<T>, me: Pos, out: seq<seq<T>>) {
    |out| == Past(me, COPY) && forall s :: 0 <= s < |out| ==> out[s] == After(job, buf, s + 1)
  }

  ghost predicate Inv<T>(job: Job<T>, buf: seq<T>, st: State<T>) {
    && Valid(job, st) && FlagIs(job, st) && BufferIs(job, buf, st)
    && (job.root.Some? ==> Fed(st.procs[0], st.procs[job.root.value]))
    && (forall p {:trigger st.procs[p]} :: 0 <= p < |st.procs| ==>
          InLoop(job.stripes, st.procs[p]) && Led(st.procs[p], st.procs[0]) && OutIs(job, buf, st.procs[p], st.out[p]))
    && (forall p, q {:trigger st.procs[p], st.procs[q]} :: 0 <= p < |st.procs| && 0 <= q < |st.procs| ==>
          Together(job.stripes, st.procs[p], st.procs[q]))
  }

  lemma {:induction false} StaysTogether<T>(job: Job<T>, buf: seq<T>, st: State<T>, p: nat, a: nat, b: nat)
    requires Inv(job, buf, st) && Enabled(job, st, p) && a < |st.procs| && b < |st.procs|
    ensures var next := Move(job, st, p).procs; Together(job.stripes, next[a], next[b])
  {
    hide FlagIs, BufferIs, OutIs, Led, Fed;
    assert Together(job.stripes, st.procs[a], st.procs[b]);
    if a == p {
      assert InLoop(job.stripes, st.procs[a]);
      assert AtLeast(st.procs[b], st.procs[b].stripe, st.procs[b].step);
      assert st.procs[p].step == LEAVE_COPIED ==> AtLeast(st.procs[b], st.procs[p].stripe, LEAVE_COPIED);
      assert st.procs[p].step == LEAVE_RESET ==> AtLeast(st.procs[b], st.procs[p].stripe, LEAVE_RESET);
    }
  }

  lemma {:induction false} NextMeansReset<T>(job: Job<T>, st: State<T>, q: nat, s: nat)
    requires q < |st.procs|
    ensures job.stripes > 1 && AtLeast(st.procs[q], s, ARRIVE_RESET) ==> WasReset(job, st, s)
  {
  }

  /** While the flag is 2, everybody is in the stripe that local rank 0 has exchanged last. */
  lemma {:induction false} FlagTwo<T>(job: Job<T>, buf: seq<T>, st: State<T>, q: nat)
    requires Inv(job, buf, st) && q < |st.procs| && st.flag >= 2
    ensures Past(st.procs[0], SET) > 0
    ensures st.procs[q].stripe < Past(st.procs[0], SET) || job.stripes <= 1
  {
    hide BufferIs, OutIs, Fed, Together, WasReset;
    NextMeansReset(job, st, q, Past(st.procs[0], SET) - 1);
  }

  lemma {:induction false} StaysLed<T>(job: Job<T>, buf: seq<T>, st: State<T>, p: nat, a: nat)
    requires Inv(job, buf, st) && Enabled(job, st, p) && a < |st.procs|
    ensures var next := Move(job, st, p).procs; Led(next[a], next[0]) && InLoop(job.stripes, next[a])
  {
    hide BufferIs, OutIs, Fed, FlagIs, Together;
    assert Led(st.procs[a], st.procs[0]) && InLoop(job.stripes, st.procs[a]) && InLoop(job.stripes, st.procs[0]);
    if a == p && st.procs[p].step == SPIN {
      FlagTwo(job, buf, st, p);
    }
  }

  lemma {:induction false} StaysFed<T>(job: Job<T>, buf: seq<T>, st: State<T>, p: nat)
    requires Inv(job, buf, st) && Enabled(job, st, p) && job.root.Some?
    ensures var next := Move(job, st, p).procs; Fed(next[0], next[job.root.value])
  {
    hide BufferIs, OutIs, Together, Led;
    var leader, root := st.procs[0], st.procs[job.root.value];
    assert InLoop(job.stripes, leader) && InLoop(job.stripes, root);
    if p == 0 && leader.step == AWAIT_PACKED && st.flag >= 2 {
      FlagTwo(job, buf, st, 0);
    }
  }

  /** The flag when nobody touches it. */
  lemma {:induction false} ResetStays<T>(job: Job<T>, buf: seq<T>, st: State<T>, p: nat, s: nat)
    requires Inv(job, buf, st) && Enabled(job, st, p) && st.procs[p].step != RESET
    ensures WasReset(job, Move(job, st, p), s) <==> WasReset(job, st, s)
  {
    hide BufferIs, OutIs, Together, Led, Fed, FlagIs;
    var next := Move(job, st, p);
    assert InLoop(job.stripes, st.procs[p]);
    forall q | 0 <= q < |st.procs|
      ensures job.stripes > 1 ==> (AtLeast(next.procs[q], s, ARRIVE_RESET) <==> AtLeast(st.procs[q], s, ARRIVE_RESET))
    {
      assert q != p ==> next.procs[q] == st.procs[q];
    }
    if WasReset(job, st, s) {
      var q :| 0 <= q < |st.procs| && AtLeast(st.procs[q], s, ARRIVE_RESET);
      assert AtLeast(next.procs[q], s, ARRIVE_RESET);
    }
    if WasReset(job, next, s) {
      var q :| 0 <= q < |st.procs| && AtLeast(next.procs[q], s, ARRIVE_RESET);
      assert AtLeast(st.procs[q], s, ARRIVE_RESET);
    }
  }

  /** All processes are in the stripe whose reset one of them is at. */
  lemma {:induction false} AllAtReset<T>(job: Job<T>, buf: seq<T>, st: State<T>, p: nat, q: nat)
    requires Inv(job, buf, st) && Enabled(job, st, p) && st.procs[p].step == RESET && q < |st.procs|
    ensures job.stripes > 1 && st.procs[q].stripe == st.procs[p].stripe && st.procs[q].step >= LEAVE_COPIED
  {
    hide BufferIs, OutIs, Led, Fed, FlagIs;
    var me, other := st.procs[p], st.procs[q];
    assert Together(job.stripes, me, other) && Together(job.stripes, other, me);
    assert InLoop(job.stripes, me) && InLoop(job.stripes, other);
  }

  lemma {:induction false} FlagAtReset<T>(job: Job<T>, buf: seq<T>, st: State<T>, p: nat)
    requires Inv(job, buf, st) && Enabled(job, st, p) && st.procs[p].step == RESET
    ensures FlagIs(job, Move(job, st, p))
  {
    hide BufferIs, OutIs, Together, Led, Fed, FlagIs, WasReset;
    var s, next := st.procs[p].stripe, Move(job, st, p);
    AllAtReset(job, buf, st, p, 0);
    if job.root.Some? {
      AllAtReset(job, buf, st, p, job.root.value);
    }
    NextMeansReset(job, next, p, s);
    ResetFlag(job, next, s);
  }

  lemma {:induction false} ResetFlag<T>(job: Job<T>, next: State<T>, s: nat)
    requires Valid(job, next) && next.flag == 0 && WasReset(job, next, s)
    requires Past(next.procs[0], SET) == s + 1
    requires job.root.Some? ==> Past(next.procs[job.root.value], ANNOUNCE) == s + 1
    ensures FlagIs(job, next)
  {
    hide WasReset;
  }

  lemma {:induction false} FlagAtAnnounce<T>(job: Job<T>, buf: seq<T>, st: State<T>, p: nat)
    requires Inv(job, buf, st) && Enabled(job, st, p) && job.root == Some(p) && st.procs[p].step == ANNOUNCE
    ensures FlagIs(job, Move(job, st, p))
  {
    hide BufferIs, OutIs, Together, Fed, WasReset;
    assert Led(st.procs[p], st.procs[0]) && InLoop(job.stripes, st.procs[0]);
  }

  lemma {:induction false} FlagAtSet<T>(job: Job<T>, buf: seq<T>, st: State<T>)
    requires Inv(job, buf, st) && Enabled(job, st, 0) && st.procs[0].step == SET
    ensures FlagIs(job, Move(job, st, 0))
  {
    hide BufferIs, OutIs, Together;
    var s, next := st.procs[0].stripe, Move(job, st, 0);
    forall q | 0 <= q < |next.procs|
      ensures !AtLeast(next.procs[q], s, ARRIVE_RESET)
    {
      assert q > 0 ==> next.procs[q] == st.procs[q] && Led(st.procs[q], st.procs[0]);
    }
    assert !WasReset(job, next, s);
  }

  lemma {:induction false} FlagUntouched<T>(job: Job<T>, buf: seq<T>, st: State<T>, p: nat)
    requires Inv(job, buf, st) && Enabled(job, st, p)
    requires st.procs[p].step != RESET && !(job.root == Some(p) && st.procs[p].step == ANNOUNCE)
    requires !(p == 0 && st.procs[p].step == SET)
    ensures FlagIs(job, Move(job, st, p))
  {
    hide BufferIs, OutIs, Together, Led, Fed, WasReset;
    var next := Move(job, st, p);
    assert InLoop(job.stripes, st.procs[p]);
    assert Past(next.procs[0], SET) == Past(st.procs[0], SET);
    var sets := Past(st.procs[0], SET);
    if sets > 0 {
      ResetStays(job, buf, st, p, sets - 1);
    }
  }

  lemma {:induction false} FlagStays<T>(job: Job<T>, buf: seq<T>, st: State<T>, p: nat)
    requires Inv(job, buf, st) && Enabled(job, st, p)
    ensures FlagIs(job, Move(job, st, p))
  {
    hide Inv, Enabled, Move, FlagIs;
    EnabledIs(job, st, p);
    if st.procs[p].step == RESET {
      FlagAtReset(job, buf, st, p);
    } else if job.root == Some(p) && st.procs[p].step == ANNOUNCE {
      FlagAtAnnounce(job, buf, st, p);
    } else if p == 0 && st.procs[p].step == SET {
      FlagAtSet(job, buf, st);
    } else {
      FlagUntouched(job, buf, st, p);
    }
  }

  lemma {:induction false} EnabledIs<T>(job: Job<T>, st: State<T>, p: nat)
    requires Enabled(job, st, p)
    ensures p < |st.procs|
  {
  }

  /** Whoever packs or copies does so between the exchanges. */
  lemma {:induction false} BufferStays<T>(job: Job<T>, buf: seq<T>, st: State<T>, p: nat)
    requires Inv(job, buf, st) && Enabled(job, st, p)
    ensures BufferIs(job, buf, Move(job, st, p))
  {
    hide OutIs, WasReset, FlagIs;
    var me, leader := st.procs[p], st.procs[0];
    assert InLoop(job.stripes, me) && InLoop(job.stripes, leader) && Led(me, leader);
    if job.root.Some? {
      var root := st.procs[job.root.value];
      assert InLoop(job.stripes, root) && Led(root, leader) && Fed(leader, root);
    }
  }

  lemma {:induction false} CopiesAfter<T>(job: Job<T>, buf: seq<T>, st: State<T>, p: nat)
    requires Inv(job, buf, st) && Enabled(job, st, p) && st.procs[p].step == COPY
    ensures st.buf == After(job, buf, st.procs[p].stripe + 1)
  {
    hide OutIs, WasReset, FlagIs, After, Packed;
    var me, leader := st.procs[p], st.procs[0];
    assert InLoop(job.stripes, me) && InLoop(job.stripes, leader) && Led(me, leader);
    assert Together(job.stripes, leader, me);
    if job.root.Some? {
      var root := st.procs[job.root.value];
      assert InLoop(job.stripes, root) && Together(job.stripes, root, me);
    }
  }

  lemma {:induction false} OutStays<T>(job: Job<T>, buf: seq<T>, st: State<T>, p: nat, a: nat)
    requires Inv(job, buf, st) && Enabled(job, st, p) && a < |st.procs|
    ensures var next := Move(job, st, p); OutIs(job, buf, next.procs[a], next.out[a])
  {
    hide BufferIs, FlagIs, Together, Led, Fed, After;
    assert OutIs(job, buf, st.procs[a], st.out[a]) && InLoop(job.stripes, st.procs[a]);
    if a == p && st.procs[p].step == COPY {
      CopiesAfter(job, buf, st, p);
    }
  }

  lemma {:induction false} MoveKeepsInv<T>(job: Job<T>, buf: seq<T>, st: State<T>, p: nat)
    requires Inv(job, buf, st) && Enabled(job, st, p)
    ensures Inv(job, buf, Move(job, st, p))
  {
    hide FlagIs, BufferIs, Together, Led, Fed, OutIs, InLoop, Enabled;
    EnabledIs(job, st, p);
    var next := Move(job, st, p);
    FlagStays(job, buf, st, p);
    BufferStays(job, buf, st, p);
    if job.root.Some? {
      StaysFed(job, buf, st, p);
    }
    forall a | 0 <= a < |next.procs|
      ensures InLoop(job.stripes, next.procs[a]) && Led(next.procs[a], next.procs[0])
      ensures OutIs(job, buf, next.procs[a], next.out[a])
    {
      StaysLed(job, buf, st, p, a);
      OutStays(job, buf, st, p, a);
    }
    forall a, b | 0 <= a < |next.procs| && 0 <= b < |next.procs|
      ensures Together(job.stripes, next.procs[a], next.procs[b])
    {
      StaysTogether(job, buf, st, p, a, b);
    }
  }

  ghost predicate ValidJob<T>(job: Job<T>, nProcs: nat) {
    nProcs > 0 && (job.root.Some? ==> job.root.value < nProcs)
  }

  lemma {:induction false} ReachableInv<T>(job: Job<T>, nProcs: nat, buf: seq<T>, sched: seq<nat>)
    requires ValidJob(job, nProcs)
    ensures Inv(job, buf, Exec(job, Start(nProcs, buf), sched))
    decreases |sched|
  {
    hide Inv, Enabled, Move, Start;
    if sched == [] {
      StartInv(job, nProcs, buf);
    } else {
      ReachableInv(job, nProcs, buf, sched[..|sched| - 1]);
      var before := Exec(job, Start(nProcs, buf), sched[..|sched| - 1]);
      if Enabled(job, before, sched[|sched| - 1]) {
        MoveKeepsInv(job, buf, before, sched[|sched| - 1]);
      }
    }
  }

  lemma {:induction false} StartInv<T>(job: Job<T>, nProcs: nat, buf: seq<T>)
    requires ValidJob(job, nProcs)
    ensures Inv(job, buf, Start(nProcs, buf))
  {
  }

  // ---------------------------------------------------------------- main results

  ghost predicate AllDone<T>(job: Job<T>, st: State<T>) {
    forall p :: 0 <= p < |st.procs| ==> st.procs[p].stripe >= job.stripes
  }

  /**
   Whatever the interleaving, the processes behave as if in every stripe first the root packed,
   then local rank 0 exchanged, and then all copied: process p has found, stripe by stripe, what
   that leaves in the buffer, and in the end of all stripes.
   */
  lemma {:induction false} StripesAreSteps<T>(job: Job<T>, nProcs: nat, buf: seq<T>, sched: seq<nat>, p: nat)
    requires ValidJob(job, nProcs) && p < nProcs
    ensures var st := Exec(job, Start(nProcs, buf), sched);
      && OutIs(job, buf, st.procs[p], st.out[p])
      && (AllDone(job, st) ==> |st.out[p]| == job.stripes)
  {
    hide FlagIs, BufferIs, Together, Led, Fed, After;
    ReachableInv(job, nProcs, buf, sched);
    var st := Exec(job, Start(nProcs, buf), sched);
    assert InLoop(job.stripes, st.procs[p]) && OutIs(job, buf, st.procs[p], st.out[p]);
  }

  function Key(p: Pos): nat { 12 * p.stripe + p.step }

  /** The process that is furthest behind can always go on. */
  lemma {:induction false} LastCanMove<T>(job: Job<T>, buf: seq<T>, st: State<T>, p: nat)
    requires Inv(job, buf, st) && p < |st.procs| && st.procs[p].stripe < job.stripes
    requires forall q :: 0 <= q < |st.procs| ==> Key(st.procs[p]) <= Key(st.procs[q])
    ensures Enabled(job, st, p)
  {
    hide BufferIs, OutIs, Led, Fed;
    var me := st.procs[p];
    forall q | 0 <= q < |st.procs|
      ensures AtLeast(st.procs[q], me.stripe, me.step) && InLoop(job.stripes, st.procs[q])
      ensures Together(job.stripes, st.procs[q], me)
    {
      assert InLoop(job.stripes, st.procs[q]) && InLoop(job.stripes, me);
      assert Key(me) <= Key(st.procs[q]);
    }
    assert AtLeast(st.procs[0], me.stripe, me.step) && Together(job.stripes, st.procs[0], me);
    if job.root.Some? {
      assert AtLeast(st.procs[job.root.value], me.stripe, me.step);
      assert Together(job.stripes, st.procs[job.root.value], me);
    }
    if me.step == SPIN {
      assert !WasReset(job, st, me.stripe);
    }
  }

  /** Until all are done, somebody can go on. */
  lemma {:induction false} SomebodyMoves<T>(job: Job<T>, buf: seq<T>, st: State<T>) returns (p: nat)
    requires Inv(job, buf, st) && !AllDone(job, st)
    ensures Enabled(job, st, p)
  {
    hide Inv, Enabled;
    var n := |st.procs|;
    var keys := seq(n, q requires 0 <= q < n => Key(st.procs[q]));
    var open := set q: nat | q < n && keys[q] >= 0;
    var u :| 0 <= u < n && st.procs[u].stripe < job.stripes;
    assert u in open;
    p := PickLowest(keys, open);
    forall q | 0 <= q < n
      ensures Key(st.procs[p]) <= Key(st.procs[q])
    {
      assert q in open && keys[q] == Key(st.procs[q]);
    }
    LowestOpen(job, buf, st, p, u);
    LastCanMove(job, buf, st, p);
  }

  /** No run gets stuck. */
  lemma {:induction false} NeverStuck<T>(job: Job<T>, nProcs: nat, buf: seq<T>, sched: seq<nat>) returns (p: nat)
    requires ValidJob(job, nProcs) && !AllDone(job, Exec(job, Start(nProcs, buf), sched))
    ensures Enabled(job, Exec(job, Start(nProcs, buf), sched), p)
  {
    hide Inv, Enabled, Start, Exec;
    ReachableInv(job, nProcs, buf, sched);
    p := SomebodyMoves(job, buf, Exec(job, Start(nProcs, buf), sched));
  }

  lemma {:induction false} LowestOpen<T>(job: Job<T>, buf: seq<T>, st: State<T>, p: nat, u: nat)
    requires Inv(job, buf, st) && p < |st.procs| && u < |st.procs| && st.procs[u].stripe < job.stripes
    requires Key(st.procs[p]) <= Key(st.procs[u])
    ensures st.procs[p].stripe < job.stripes
  {
    assert InLoop(job.stripes, st.procs[u]) && InLoop(job.stripes, st.procs[p]);
  }
}
