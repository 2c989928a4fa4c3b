/**
 The chunk loop of `ulm_bcast` on one host, every interleaving of its processes: the root
 fills the shared buffer and sets the flag to 2, the others wait for the 2 and copy out;
 between chunks all meet, set the flag to 1, and meet again.
 */
module BcastLoop {
  import opened Network

  // The steps of one chunk.  Only the root fills and sets, only the others wait and copy.
  const AWAIT := 0
  const ACCESS := 1
  const SET := 2
  const ARRIVE_READ := 3
  const LEAVE_READ := 4
  const CLEAR := 5
  const ARRIVE_CLEAR := 6
  const LEAVE_CLEAR := 7

  datatype Pos = Pos(chunk: nat, step: nat)

  /** The chunks of the message, and which process is the root on this host. */
  datatype Job<T> = Job(chunks: seq<T>, root: nat)

  /** `out[p]` is what process p has copied out of the shared buffer so far. */
  datatype State<T> = State(procs: seq<Pos>, flag: nat, buf: Option<T>, out: seq<seq<T>>)

  predicate AtLeast(p: Pos, chunk: nat, step: nat) { p.chunk > chunk || (p.chunk == chunk && p.step >= step) }

  predicate AllAtLeast<T>(st: State<T>, chunk: nat, step: nat) {
    forall q :: 0 <= q < |st.procs| ==> AtLeast(st.procs[q], chunk, step)
  }

  predicate Enabled<T>(job: Job<T>, st: State<T>, p: nat) {
    p < |st.procs| && st.procs[p].chunk < |job.chunks| &&
    var me := st.procs[p];
    && (me.step == AWAIT && p != job.root ==> st.flag == 2)
    && (me.step == LEAVE_READ ==> AllAtLeast(st, me.chunk, LEAVE_READ))
    && (me.step == LEAVE_CLEAR ==> AllAtLeast(st, me.chunk, LEAVE_CLEAR))
  }

  /** After the last chunk there are no barriers. */
  function Advance(p: Pos, n: nat): Pos {
    if p.step == LEAVE_CLEAR || (p.step == SET && p.chunk + 1 == n) then Pos(p.chunk + 1, 0)
    else Pos(p.chunk, p.step + 1)
  }

  function Move<T>(job: Job<T>, st: State<T>, p: nat): State<T>
    requires Enabled(job, st, p) && |st.out| == |st.procs|
  {
    var me := st.procs[p];
    State(st.procs[p := Advance(me, |job.chunks|)],
          if me.step == CLEAR then 1 else if p == job.root && me.step == SET then 2 else st.flag,
          if p == job.root && me.step == ACCESS then Some(job.chunks[me.chunk]) else st.buf,
          if p != job.root && me.step == ACCESS && st.buf.Some? then st.out[p := st.out[p] + [st.buf.value]]
          else st.out)
  }

  /** A descriptor comes with its flag at 0. */
  function Start<T>(nProcs: nat): (st: State<T>)
    ensures |st.procs| == |st.out| == nProcs
  {
    State(seq(nProcs, i => Pos(0, 0)), 0, None, seq(nProcs, i => []))
  }

  ghost function Exec<T>(job: Job<T>, st: State<T>, sched: seq<nat>): (st': State<T>)
    requires |st.out| == |st.procs|
    ensures |st'.out| == |st'.procs| == |st.procs|
  {
    if sched == [] then st
    else
      var before := Exec(job, st, sched[..|sched| - 1]);
      var p := sched[|sched| - 1];
      if Enabled(job, before, p) then Move(job, before, p) else before
  }

  // ---------------------------------------------------------------- the invariant

  ghost predicate InLoop(n: nat, p: Pos) {
    if p.chunk < n then p.step <= (if p.chunk + 1 == n then SET else LEAVE_CLEAR) else p == Pos(n, 0)
  }

  /** The last chunk whose second barrier p has left, counted from 1. */
  function Cleared(n: nat, p: Pos): nat { if p.chunk < n then p.chunk else if n > 0 then n - 1 else 0 }

  /** What q must have done for p to be where it is. */
  ghost predicate Together(n: nat, p: Pos, q: Pos) {
    && (p.step > LEAVE_READ ==> AtLeast(q, p.chunk, LEAVE_READ))
    && (Cleared(n, p) > 0 ==> AtLeast(q, Cleared(n, p) - 1, LEAVE_CLEAR))
  }

  /** The root has set the flag for every chunk that another process has begun to copy. */
  ghost predicate Led(n: nat, p: Pos, root: Pos) {
    && (p.step > AWAIT ==> AtLeast(root, p.chunk, ARRIVE_READ))
    && (p.chunk == n > 0 ==> AtLeast(root, n - 1, ARRIVE_READ))
  }

  ghost predicate FlagIs<T>(job: Job<T>, st: State<T>)
    requires job.root < |st.procs|
  {
    var r := st.procs[job.root];
    if r.chunk >= |job.chunks| then |job.chunks| > 0 ==> st.flag == 2
    else
      && (r.step <= SET ==> st.flag != 2)
      && (forall q {:trigger st.procs[q]} ::
            0 <= q < |st.procs| && AtLeast(st.procs[q], r.chunk, ARRIVE_CLEAR) ==> st.flag != 2)
      && (r.step > SET && !AtLeast(r, r.chunk, ARRIVE_CLEAR) && st.flag != 2 ==>
            exists q :: 0 <= q < |st.procs| && AtLeast(st.procs[q], r.chunk, ARRIVE_CLEAR))
  }

  /** How many chunks a process has put in or taken out. */
  function Accessed(p: Pos): nat { if p.step > ACCESS then p.chunk + 1 else p.chunk }

  ghost predicate BufferIs<T>(job: Job<T>, st: State<T>)
    requires job.root < |st.procs|
  {
    var k := Accessed(st.procs[job.root]);
    k <= |job.chunks| && (k > 0 ==> st.buf == Some(job.chunks[k - 1]))
  }

  ghost predicate OutIs<T>(job: Job<T>, p: Pos, out: seq<T>) {
    Accessed(p) <= |job.chunks| && out == job.chunks[..Accessed(p)]
  }

  ghost predicate Inv<T>(job: Job<T>, st: State<T>) {
    && job.root < |st.procs| == |st.out|
    && FlagIs(job, st) && BufferIs(job, st)
    && (forall p {:trigger st.procs[p]} :: 0 <= p < |st.procs| ==>
          InLoop(|job.chunks|, st.procs[p]) &&
          (p != job.root ==> Led(|job.chunks|, st.procs[p], st.procs[job.root]) && OutIs(job, st.procs[p], st.out[p])))
    && (forall p, q {:trigger st.procs[p], st.procs[q]} :: 0 <= p < |st.procs| && 0 <= q < |st.procs| ==>
          Together(|job.chunks|, st.procs[p], st.procs[q]))
  }

  /** A process that sees the 2 sees the 2 for its own chunk. */
  lemma {:induction false} FlagMeans<T>(job: Job<T>, st: State<T>, p: nat)
    requires Inv(job, st) && p < |st.procs| && p != job.root && st.procs[p].chunk < |job.chunks|
    requires st.procs[p].step == AWAIT && st.flag == 2
    ensures AtLeast(st.procs[job.root], st.procs[p].chunk, ARRIVE_READ)
  {
    var me, root := st.procs[p], st.procs[job.root];
    assert Together(|job.chunks|, me, root) && Together(|job.chunks|, root, me) && InLoop(|job.chunks|, root);
    assert !(root.chunk < |job.chunks| && AtLeast(root, root.chunk, ARRIVE_CLEAR));
  }

  /** A process that copies finds its own chunk. */
  lemma {:induction false} BufferMeans<T>(job: Job<T>, st: State<T>, p: nat)
    requires Inv(job, st) && p < |st.procs| && p != job.root && st.procs[p].chunk < |job.chunks|
    requires st.procs[p].step == ACCESS
    ensures st.buf == Some(job.chunks[st.procs[p].chunk])
    ensures !(st.procs[job.root].chunk < |job.chunks| && st.procs[job.root].step == ACCESS)
  {
    var me, root := st.procs[p], st.procs[job.root];
    assert Together(|job.chunks|, root, me) && InLoop(|job.chunks|, root) && Led(|job.chunks|, me, root);
  }

  lemma {:induction false} StaysTogether<T>(job: Job<T>, st: State<T>, p: nat, a: nat, b: nat)
    requires Inv(job, st) && Enabled(job, st, p) && a < |st.procs| && b < |st.procs|
    ensures var next := Move(job, st, p).procs; Together(|job.chunks|, next[a], next[b])
  {
    assert Together(|job.chunks|, st.procs[a], st.procs[b]) && InLoop(|job.chunks|, st.procs[a]);
    if a == p {
      assert st.procs[p].step == LEAVE_READ ==> AtLeast(st.procs[b], st.procs[p].chunk, LEAVE_READ);
      assert st.procs[p].step == LEAVE_CLEAR ==> AtLeast(st.procs[b], st.procs[p].chunk, LEAVE_CLEAR);
    }
  }

  lemma {:induction false} StaysLed<T>(job: Job<T>, st: State<T>, p: nat, a: nat)
    requires Inv(job, st) && Enabled(job, st, p) && a < |st.procs|
    ensures var next := Move(job, st, p);
      InLoop(|job.chunks|, next.procs[a]) &&
      (a != job.root ==>
        Led(|job.chunks|, next.procs[a], next.procs[job.root]) && OutIs(job, next.procs[a], next.out[a]))
  {
    hide FlagIs, BufferIs, Together;
    assert InLoop(|job.chunks|, st.procs[a]);
    if a != job.root {
      assert Led(|job.chunks|, st.procs[a], st.procs[job.root]) && OutIs(job, st.procs[a], st.out[a]);
      if a == p && st.procs[p].step == AWAIT {
        FlagMeans(job, st, p);
      } else if a == p && st.procs[p].step == ACCESS {
        BufferMeans(job, st, p);
      }
    }
  }

  /** When the root sets the flag, nobody is past clearing it. */
  lemma {:induction false} NotYetCleared<T>(job: Job<T>, st: State<T>, q: nat)
    requires Inv(job, st) && q < |st.procs|
    requires st.procs[job.root].chunk + 1 < |job.chunks| && st.procs[job.root].step == SET
    ensures !AtLeast(st.procs[q], st.procs[job.root].chunk, ARRIVE_CLEAR)
  {
    var root := st.procs[job.root];
    assert Together(|job.chunks|, st.procs[q], root) && InLoop(|job.chunks|, st.procs[q]);
  }

  /** Whoever clears the flag clears it for the root's chunk. */
  lemma {:induction false} ClearsOwn<T>(job: Job<T>, st: State<T>, p: nat)
    requires Inv(job, st) && p < |st.procs| && st.procs[p].chunk < |job.chunks| && st.procs[p].step == CLEAR
    ensures st.procs[job.root].chunk == st.procs[p].chunk
  {
    var me, root := st.procs[p], st.procs[job.root];
    assert Together(|job.chunks|, me, root) && Together(|job.chunks|, root, me);
    assert InLoop(|job.chunks|, me) && InLoop(|job.chunks|, root);
  }

  lemma {:induction false} RootKeepsFlag<T>(job: Job<T>, st: State<T>)
    requires Inv(job, st) && Enabled(job, st, job.root) && st.procs[job.root].step != CLEAR
    ensures FlagIs(job, Move(job, st, job.root))
  {
    hide Together, BufferIs, OutIs, Led;
    var next, root := Move(job, st, job.root), st.procs[job.root];
    assert InLoop(|job.chunks|, root);
    if root.step == SET && root.chunk + 1 < |job.chunks| {
      forall q | 0 <= q < |st.procs|
        ensures !AtLeast(next.procs[q], root.chunk, ARRIVE_CLEAR)
      {
        NotYetCleared(job, st, q);
      }
    } else if root.step > SET {
      KeepsWitness(job, st, job.root);
    }
  }

  /** Positions only grow, so that a process past clearing stays a witness. */
  lemma {:induction false} KeepsWitness<T>(job: Job<T>, st: State<T>, p: nat)
    requires Inv(job, st) && Enabled(job, st, p)
    ensures var c := st.procs[job.root].chunk;
      (exists q :: 0 <= q < |st.procs| && AtLeast(st.procs[q], c, ARRIVE_CLEAR)) ==>
      (exists q :: 0 <= q < |st.procs| && AtLeast(Move(job, st, p).procs[q], c, ARRIVE_CLEAR))
  {
    var c, next := st.procs[job.root].chunk, Move(job, st, p).procs;
    if w :| 0 <= w < |st.procs| && AtLeast(st.procs[w], c, ARRIVE_CLEAR) {
      assert AtLeast(next[w], c, ARRIVE_CLEAR);
    }
  }

  lemma {:induction false} OtherKeepsFlag<T>(job: Job<T>, st: State<T>, p: nat)
    requires Inv(job, st) && Enabled(job, st, p) && p != job.root && st.procs[p].step != CLEAR
    ensures FlagIs(job, Move(job, st, p))
  {
    hide Together, BufferIs, OutIs;
    var next, root, me := Move(job, st, p), st.procs[job.root], st.procs[p];
    assert InLoop(|job.chunks|, root) && InLoop(|job.chunks|, me) && Led(|job.chunks|, me, root);
    KeepsWitness(job, st, p);
    if root.chunk < |job.chunks| {
      forall q | 0 <= q < |next.procs| && AtLeast(next.procs[q], root.chunk, ARRIVE_CLEAR)
        ensures AtLeast(st.procs[q], root.chunk, ARRIVE_CLEAR)
      {
      }
    }
  }

  lemma {:induction false} ClearKeepsFlag<T>(job: Job<T>, st: State<T>, p: nat)
    requires Inv(job, st) && Enabled(job, st, p) && st.procs[p].step == CLEAR
    ensures FlagIs(job, Move(job, st, p))
  {
    hide Together, BufferIs, OutIs, Led;
    ClearsOwn(job, st, p);
    var next := Move(job, st, p);
    assert InLoop(|job.chunks|, st.procs[p]);
    assert AtLeast(next.procs[p], st.procs[p].chunk, ARRIVE_CLEAR);
  }

  lemma {:induction false} BufferStays<T>(job: Job<T>, st: State<T>, p: nat)
    requires Inv(job, st) && Enabled(job, st, p)
    ensures BufferIs(job, Move(job, st, p))
  {
    assert InLoop(|job.chunks|, st.procs[job.root]);
  }

  lemma {:induction false} MoveKeepsInv<T>(job: Job<T>, st: State<T>, p: nat)
    requires Inv(job, st) && Enabled(job, st, p)
    ensures Inv(job, Move(job, st, p))
  {
    hide Together, Led, OutIs, FlagIs, BufferIs;
    var next := Move(job, st, p);
    if st.procs[p].step == CLEAR {
      ClearKeepsFlag(job, st, p);
    } else if p == job.root {
      RootKeepsFlag(job, st);
    } else {
      OtherKeepsFlag(job, st, p);
    }
    BufferStays(job, st, p);
    forall a | 0 <= a < |next.procs|
      ensures InLoop(|job.chunks|, next.procs[a])
      ensures a != job.root ==>
        Led(|job.chunks|, next.procs[a], next.procs[job.root]) && OutIs(job, next.procs[a], next.out[a])
    {
      StaysLed(job, st, p, a);
    }
    forall a, b | 0 <= a < |next.procs| && 0 <= b < |next.procs|
      ensures Together(|job.chunks|, next.procs[a], next.procs[b])
    {
      StaysTogether(job, st, p, a, b);
    }
  }

  lemma {:induction false} StartInv<T>(job: Job<T>, nProcs: nat)
    requires job.root < nProcs
    ensures Inv(job, Start<T>(nProcs))
  {
  }

  lemma {:induction false} ReachableInv<T>(job: Job<T>, nProcs: nat, sched: seq<nat>)
    requires job.root < nProcs
    ensures Inv(job, Exec(job, Start(nProcs), sched))
    decreases |sched|
  {
    hide Inv, Enabled, Move, Start;
    if sched == [] {
      StartInv(job, nProcs);
    } else {
      ReachableInv(job, nProcs, sched[..|sched| - 1]);
      var before := Exec(job, Start(nProcs), sched[..|sched| - 1]);
      if Enabled(job, before, sched[|sched| - 1]) {
        MoveKeepsInv(job, before, sched[|sched| - 1]);
      }
    }
  }

  // ---------------------------------------------------------------- safety and progress

  ghost predicate At<T>(job: Job<T>, st: State<T>, p: nat, step: nat) {
    p < |st.procs| && st.procs[p].chunk < |job.chunks| && st.procs[p].step == step
  }

  ghost predicate AllDone<T>(job: Job<T>, st: State<T>) {
    forall p :: 0 <= p < |st.procs| ==> st.procs[p].chunk >= |job.chunks|
  }

  /**
   In every run, what a process has copied out is always a prefix of the message, and all of
   it at the end; nobody copies while the root fills the buffer.
   */
  lemma {:induction false} BroadcastDelivers<T>(job: Job<T>, nProcs: nat, sched: seq<nat>, p: nat)
    requires job.root < nProcs && p < nProcs && p != job.root
    ensures var st := Exec(job, Start(nProcs), sched);
      && st.out[p] <= job.chunks
      && (AllDone(job, st) ==> st.out[p] == job.chunks)
      && !(At(job, st, p, ACCESS) && At(job, st, job.root, ACCESS))
  {
    hide FlagIs, Together, Led, BufferIs, Enabled, Move;
    ReachableInv(job, nProcs, sched);
    var st := Exec(job, Start(nProcs), sched);
    assert InLoop(|job.chunks|, st.procs[p]) && OutIs(job, st.procs[p], st.out[p]);
    if At(job, st, p, ACCESS) {
      BufferMeans(job, st, p);
    }
  }

  function Key(p: Pos): nat { 8 * p.chunk + p.step }

  lemma {:induction false} RootCanMove<T>(job: Job<T>, st: State<T>)
    requires Inv(job, st) && st.procs[job.root].chunk < |job.chunks| && st.procs[job.root].step <= SET
    ensures Enabled(job, st, job.root)
  {
  }

  /** Unless the root has yet to set the flag, the process furthest behind can go on. */
  lemma {:induction false} LastCanMove<T>(job: Job<T>, st: State<T>, p: nat)
    requires Inv(job, st) && p < |st.procs| && st.procs[p].chunk < |job.chunks|
    requires st.procs[job.root].chunk >= |job.chunks| || st.procs[job.root].step > SET
    requires forall q :: 0 <= q < |st.procs| ==> Key(st.procs[p]) <= Key(st.procs[q])
    ensures Enabled(job, st, p)
  {
    hide OutIs, BufferIs, Led;
    var me, root := st.procs[p], st.procs[job.root];
    forall q | 0 <= q < |st.procs|
      ensures AtLeast(st.procs[q], me.chunk, me.step)
    {
      assert InLoop(|job.chunks|, st.procs[q]) && InLoop(|job.chunks|, me);
      assert Key(me) <= Key(st.procs[q]);
    }
    if me.step == AWAIT && p != job.root {
      SeesFlag(job, st, p);
    }
  }

  lemma {:induction false} SeesFlag<T>(job: Job<T>, st: State<T>, p: nat)
    requires Inv(job, st) && p < |st.procs| && st.procs[p].chunk < |job.chunks| && st.procs[p].step == AWAIT
    requires st.procs[job.root].chunk >= |job.chunks| || st.procs[job.root].step > SET
    requires AtLeast(st.procs[job.root], st.procs[p].chunk, AWAIT)
    ensures st.flag == 2
  {
    hide OutIs, BufferIs, Led;
    var me, root := st.procs[p], st.procs[job.root];
    assert InLoop(|job.chunks|, root) && Together(|job.chunks|, root, me);
    forall q | 0 <= q < |st.procs|
      ensures root.chunk < |job.chunks| ==> !AtLeast(st.procs[q], root.chunk, ARRIVE_CLEAR)
    {
      assert Together(|job.chunks|, st.procs[q], me) && InLoop(|job.chunks|, st.procs[q]);
    }
  }

  /** Until all are done, somebody can go on. */
  lemma {:induction false} SomebodyMoves<T>(job: Job<T>, st: State<T>) returns (p: nat)
    requires Inv(job, st) && !AllDone(job, st)
    ensures Enabled(job, st, p)
  {
    hide Enabled, FlagIs, BufferIs, Led, OutIs, Together, InLoop;
    var n := |st.procs|;
    if st.procs[job.root].chunk < |job.chunks| && st.procs[job.root].step <= SET {
      RootCanMove(job, st);
      p := job.root;
    } else {
      var keys := seq(n, q requires 0 <= q < n => Key(st.procs[q]));
      var open := set q: nat | q < n && keys[q] >= 0;
      var u :| 0 <= u < n && st.procs[u].chunk < |job.chunks|;
      assert u in open;
      p := PickLowest(keys, open);
      forall q | 0 <= q < n
        ensures Key(st.procs[p]) <= Key(st.procs[q])
      {
        assert q in open && keys[q] == Key(st.procs[q]);
      }
      LowestOpen(job, st, p, u);
      LastCanMove(job, st, p);
    }
  }

  /** No run gets stuck. */
  lemma {:induction false} NeverStuck<T>(job: Job<T>, nProcs: nat, sched: seq<nat>) returns (p: nat)
    requires job.root < nProcs && !AllDone(job, Exec(job, Start(nProcs), sched))
    ensures Enabled(job, Exec(job, Start(nProcs), sched), p)
  {
    hide Inv, Enabled, Start, Exec;
    ReachableInv(job, nProcs, sched);
    p := SomebodyMoves(job, Exec(job, Start(nProcs), sched));
  }

  lemma {:induction false} LowestOpen<T>(job: Job<T>, st: State<T>, p: nat, u: nat)
    requires Inv(job, st) && p < |st.procs| && u < |st.procs| && st.procs[u].chunk < |job.chunks|
    requires Key(st.procs[p]) <= Key(st.procs[u])
    ensures st.procs[p].chunk < |job.chunks|
  {
    assert InLoop(|job.chunks|, st.procs[u]) && InLoop(|job.chunks|, st.procs[p]);
  }
}
