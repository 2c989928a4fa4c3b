/**
 The shared-memory fan-in of `ulm_reduce_intrahost`, as interleaved steps of the processes
 on one host.  Ranks are relative to the on-host root, which has rank 0.

 Every process has two flag words and a buffer in shared memory.  Under each mask a process
 whose partner is higher reads the partner's buffer into its own; both sides announce
 themselves in the flag word of the current parity, and the reader clears both words when
 it is done.  Each access to shared memory is one step.
 */
module IntrahostReduce {
  import opened Bits
  import opened FanIn
  import opened Folds
  import Network

  /** Where a process is in its loop. */
  datatype Pc =
    | Enter      // about to look at the shared buffer's tag
    | Load       // about to copy its next block into its buffer
    | Head       // at the head of the mask loop
    | Await      // reader: spins until the partner's flag names it
    | Combine    // reader: about to combine the partner's buffer into its own
    | ClearPeer  // reader: about to clear the partner's flag
    | ClearSelf  // reader: about to clear its own flag
    | Parked     // sender: spins until the reader has cleared its flag
    | Store      // past the masks; the root is about to copy the result out
    | Finished

  datatype Proc = Proc(pc: Pc, block: nat, level: nat, parity: nat)

  /** `x[b][p]` is what process p contributes to block b. */
  datatype Job<!T> = Job(n: nat, x: seq<seq<T>>, op: (T, T) -> T)

  /** `flag[p]` are process p's two flag words; `out` is what the root has copied out. */
  datatype State<T> = State(procs: seq<Proc>, flag: seq<seq<int>>, buf: seq<T>, out: seq<T>, tagged: bool)

  const NOBODY: int := -1

  ghost predicate ValidJob<T>(job: Job<T>) {
    job.n >= 1 && forall b :: 0 <= b < |job.x| ==> |job.x[b]| == job.n
  }

  ghost predicate Shaped<T>(job: Job<T>, s: State<T>) {
    && |s.procs| == |s.flag| == |s.buf| == job.n
    && (forall p :: 0 <= p < job.n ==> |s.flag[p]| == 2)
    && (forall p :: 0 <= p < job.n ==> s.procs[p].parity < 2)
  }

  /** The loop runs over the masks below the number of processes. */
  ghost predicate InLoop(n: nat, level: nat) { Pow2(level) < n }

  /** `peer = self ^ mask` */
  function Peer(p: nat, level: nat): nat { Flip(p, level) }

  ghost predicate Enabled<T>(job: Job<T>, s: State<T>, p: nat)
    requires ValidJob(job) && Shaped(job, s)
  {
    p < job.n &&
    var me := s.procs[p];
    match me.pc
    case Load => me.block < |job.x|
    case Await => Peer(p, me.level) < job.n && s.flag[Peer(p, me.level)][me.parity] == p
    case Combine => Peer(p, me.level) < job.n
    case ClearPeer => Peer(p, me.level) < job.n
    case Parked => s.flag[p][me.parity] != Peer(p, me.level)
    case Finished => false
    case _ => true
  }

  ghost function SetFlag(flag: seq<seq<int>>, p: nat, parity: nat, v: int): (f: seq<seq<int>>)
    requires p < |flag| && parity < |flag[p]|
    ensures |f| == |flag| && |f[p]| == |flag[p]|
  {
    flag[p := flag[p][parity := v]]
  }

  function NextMask(me: Proc): Proc {
    me.(pc := Head, level := me.level + 1, parity := if me.parity == 0 then 1 else 0)
  }

  function NextBlock(me: Proc, blocks: nat): Proc {
    me.(pc := if me.block + 1 == blocks then Finished else Load, block := me.block + 1, level := 0)
  }

  ghost function Put<T>(s: State<T>, p: nat, me: Proc): State<T>
    requires p < |s.procs|
  {
    s.(procs := s.procs[p := me])
  }

  ghost function HeadStep<T>(job: Job<T>, s: State<T>, p: nat): (s': State<T>)
    requires ValidJob(job) && Shaped(job, s) && p < job.n
    ensures Shaped(job, s')
  {
    var me := s.procs[p];
    var peer := Peer(p, me.level);
    if !InLoop(job.n, me.level) then Put(s, p, me.(pc := Store))
    else if peer >= job.n then Put(s, p, NextMask(me))
    else
      Put(s, p, me.(pc := if p < peer then Await else Parked)).(flag := SetFlag(s.flag, p, me.parity, peer))
  }

  ghost function Step<T>(job: Job<T>, s: State<T>, p: nat): (s': State<T>)
    requires ValidJob(job) && Shaped(job, s) && Enabled(job, s, p)
    ensures Shaped(job, s')
  {
    var me := s.procs[p];
    var peer := Peer(p, me.level);
    match me.pc
    case Enter =>
      Put(s, p, me.(pc := if |job.x| == 0 then Finished else Load))
        .(flag := if s.tagged then s.flag else seq(job.n, q => [NOBODY, NOBODY]), tagged := true)
    case Load => Put(s, p, me.(pc := Head)).(buf := s.buf[p := job.x[me.block][p]])
    case Head => HeadStep(job, s, p)
    case Await => Put(s, p, me.(pc := Combine))
    case Combine => Put(s, p, me.(pc := ClearPeer)).(buf := s.buf[p := job.op(s.buf[peer], s.buf[p])])
    case ClearPeer => Put(s, p, me.(pc := ClearSelf)).(flag := SetFlag(s.flag, peer, me.parity, NOBODY))
    case ClearSelf => Put(s, p, NextMask(me)).(flag := SetFlag(s.flag, p, me.parity, NOBODY))
    case Parked => Put(s, p, NextMask(me))
    case _ =>
      Put(s, p, NextBlock(me, |job.x|)).(out := if p == 0 then s.out + [s.buf[0]] else s.out)
  }

  ghost predicate Initial<T>(job: Job<T>, s: State<T>) {
    && Shaped(job, s) && s.out == [] && !s.tagged
    && forall p :: 0 <= p < job.n ==> s.procs[p] == Proc(Enter, 0, 0, 0)
  }

  /** A schedule names the process that runs next; one that cannot move spins. */
  ghost function Run<T>(job: Job<T>, s: State<T>, sched: seq<nat>): (s': State<T>)
    requires ValidJob(job) && Shaped(job, s)
    ensures Shaped(job, s')
    decreases |sched|
  {
    if sched == [] then s
    else
      var before := Run(job, s, sched[..|sched| - 1]);
      var p := sched[|sched| - 1];
      if Enabled(job, before, p) then Step(job, before, p) else before
  }

  // ---------------------------------------------------------------- what the steps keep

  /** The number of masks below n. */
  ghost function Masks(n: nat): (k: nat)
    requires n >= 1
    ensures Pow2(k) >= n && forall j: nat :: j < k ==> Pow2(j) < n
  {
    if n == 1 then 0
    else
      var k := Masks((n + 1) / 2) + 1;
      assert forall j: nat :: 0 < j < k ==> Pow2(j) == 2 * Pow2(j - 1);
      k
  }

  lemma {:induction false} LoopRuns(n: nat, level: nat)
    requires n >= 1
    ensures InLoop(n, level) <==> level < Masks(n)
  {
    if level >= Masks(n) {
      Pow2Monotone(Masks(n), level);
    }
  }

  /** The parity that a process has in block b under mask 2^k. */
  ghost function Parity(b: nat, k: nat, masks: nat): (r: nat)
    ensures r < 2
    decreases b, k
  {
    if k > 0 then 1 - Parity(b, k - 1, masks) else if b == 0 then 0 else Parity(b - 1, masks, masks)
  }

  /** What process p's buffer holds in block b after k masks. */
  ghost function Value<T>(job: Job<T>, b: nat, k: nat, p: nat): T
    requires ValidJob(job) && b < |job.x| && p < job.n
    decreases k
  {
    if k == 0 then job.x[b][p]
    else if p < Peer(p, k - 1) < job.n
    then job.op(Value(job, b, k - 1, Peer(p, k - 1)), Value(job, b, k - 1, p))
    else Value(job, b, k - 1, p)
  }

  ghost predicate Reads(pc: Pc) { pc in {Await, Combine, ClearPeer, ClearSelf} }

  /** The range of a process's variables, and its own flag words. */
  ghost predicate ProcInv(n: nat, blocks: nat, me: Proc, p: nat, f: seq<int>)
    requires n >= 1
  {
    && |f| == 2
    && me.block <= blocks && me.level <= Masks(n)
    && me.parity == Parity(me.block, me.level, Masks(n))
    && (me.pc == Finished <==> me.block == blocks && me.pc != Enter)
    && (me.pc in {Enter, Load, Finished} ==> me.level == 0)
    && (me.pc == Enter ==> me.block == 0)
    && (me.pc == Store ==> me.level == Masks(n))
    && (Reads(me.pc) ==> me.level < Masks(n) && p < Peer(p, me.level) < n)
    && (me.pc == Parked ==> me.level < Masks(n) && Peer(p, me.level) < p)
    && f[1 - me.parity] == NOBODY
    && (Reads(me.pc) ==> f[me.parity] == Peer(p, me.level))
    && (me.pc == Parked ==> f[me.parity] in {NOBODY, Peer(p, me.level)})
    && (!Reads(me.pc) && me.pc != Parked ==> f[me.parity] == NOBODY)
  }

  ghost predicate BufferInv<T>(job: Job<T>, me: Proc, p: nat, v: T)
    requires ValidJob(job) && p < job.n
  {
    && (me.pc in {Head, Await, Combine, Parked, Store} ==> me.block < |job.x| && v == Value(job, me.block, me.level, p))
    && (me.pc in {ClearPeer, ClearSelf} ==> me.block < |job.x| && v == Value(job, me.block, me.level + 1, p))
  }

  ghost predicate At(me: Proc, b: nat, k: nat) { me.block == b && me.level == k }

  ghost predicate Past(me: Proc, b: nat, k: nat) { me.block > b || (me.block == b && me.level > k) }

  /** The reader has cleared its partner's flag for this mask of this block. */
  ghost predicate Consumed(reader: Proc, b: nat, k: nat) {
    Past(reader, b, k) || (At(reader, b, k) && reader.pc == ClearSelf)
  }

  /** The sender has offered its buffer for this mask of this block. */
  ghost predicate Posted(sender: Proc, b: nat, k: nat) {
    Past(sender, b, k) || (At(sender, b, k) && sender.pc == Parked)
  }

  /** The handshake between reader r and its sender for one mask of one block. */
  ghost predicate PairInv(reader: Proc, sender: Proc, f: seq<int>, r: nat, b: nat, k: nat)
    requires |f| == 2 && sender.parity < 2
  {
    && (Consumed(reader, b, k) ==> Posted(sender, b, k))
    && (Past(sender, b, k) ==> Consumed(reader, b, k))
    && (At(reader, b, k) && reader.pc in {Combine, ClearPeer} ==> Posted(sender, b, k))
    && (At(sender, b, k) && sender.pc == Parked ==>
          f[sender.parity] == if Consumed(reader, b, k) then NOBODY else r)
  }

  /** Reader r and process r + 2^k meet under mask 2^k. */
  ghost predicate IsPair(n: nat, r: nat, k: nat)
    requires n >= 1
  {
    k < Masks(n) && r < Peer(r, k) < n
  }

  ghost predicate ProcOk<T>(job: Job<T>, s: State<T>, p: nat)
    requires ValidJob(job) && Shaped(job, s) && p < job.n
  {
    ProcInv(job.n, |job.x|, s.procs[p], p, s.flag[p]) && BufferInv(job, s.procs[p], p, s.buf[p])
  }

  ghost predicate PairOk<T>(job: Job<T>, s: State<T>, r: nat, k: nat, b: nat)
    requires ValidJob(job) && Shaped(job, s) && IsPair(job.n, r, k)
  {
    PairInv(s.procs[r], s.procs[Peer(r, k)], s.flag[Peer(r, k)], r, b, k)
  }

  ghost predicate OutOk<T>(job: Job<T>, s: State<T>)
    requires ValidJob(job) && Shaped(job, s)
  {
    && |s.out| == s.procs[0].block <= |job.x|
    && forall b :: 0 <= b < |s.out| ==> s.out[b] == Value(job, b, Masks(job.n), 0)
  }

  ghost predicate Inv<T>(job: Job<T>, s: State<T>)
    requires ValidJob(job)
  {
    && Shaped(job, s)
    && (!s.tagged ==> s.out == [] && forall p :: 0 <= p < job.n ==> s.procs[p] == Proc(Enter, 0, 0, 0))
    && (s.tagged ==> OutOk(job, s))
    && (s.tagged ==> forall p {:trigger ProcOk(job, s, p)} :: 0 <= p < job.n ==> ProcOk(job, s, p))
    && (s.tagged ==> forall r: nat, k: nat, b: nat {:trigger PairOk(job, s, r, k, b)} ::
          IsPair(job.n, r, k) ==> PairOk(job, s, r, k, b))
  }

  lemma {:induction false} PeerBack(p: nat, k: nat)
    ensures Peer(Peer(p, k), k) == p && Peer(p, k) != p
  {
    FlipTwice(p, k);
    FlipValue(p, k);
  }

  /** A process meets a given partner under one mask only. */
  lemma {:induction false} PeerOnce(p: nat, k: nat, j: nat)
    requires Peer(p, k) == Peer(p, j)
    ensures k == j
  {
    FlipBit(p, k, k);
    FlipBit(p, j, k);
  }

  /** While the reader combines, its partner is parked at the same mask of the same block. */
  lemma {:induction false} PartnerParked<T>(job: Job<T>, s: State<T>, r: nat)
    requires ValidJob(job) && Inv(job, s) && s.tagged && r < job.n
    requires s.procs[r].pc in {Combine, ClearPeer}
    ensures var me := s.procs[r]; var q := Peer(r, me.level);
      && IsPair(job.n, r, me.level)
      && s.procs[q].pc == Parked && At(s.procs[q], me.block, me.level)
      && s.procs[q].parity == me.parity && s.flag[q][me.parity] == r
  {
    hide Value, Peer, Masks, Parity;
    var me := s.procs[r];
    assert ProcOk(job, s, r);
    assert PairOk(job, s, r, me.level, me.block);
    assert ProcOk(job, s, Peer(r, me.level));
  }

  /** A reader whose partner's flag names it has found the partner parked for this mask. */
  lemma {:induction false} AwaitedIsPosted<T>(job: Job<T>, s: State<T>, r: nat)
    requires ValidJob(job) && Inv(job, s) && s.tagged && r < job.n
    requires s.procs[r].pc == Await && Enabled(job, s, r)
    ensures var me := s.procs[r]; Posted(s.procs[Peer(r, me.level)], me.block, me.level)
  {
    hide Value, Peer, Masks, Parity;
    var me := s.procs[r];
    var q := Peer(r, me.level);
    assert ProcOk(job, s, r) && ProcOk(job, s, q);
    var you := s.procs[q];
    assert PairOk(job, s, r, me.level, me.block);
    PeerBack(r, me.level);
    if me.parity == you.parity && you.pc == Parked {
      PeerOnce(q, me.level, you.level);
      assert PairOk(job, s, r, me.level, you.block);
    }
  }

  lemma {:induction false} ParityStep(b: nat, k: nat, masks: nat)
    ensures Parity(b, k + 1, masks) == 1 - Parity(b, k, masks)
    ensures Parity(b + 1, 0, masks) == Parity(b, masks, masks)
    ensures Parity(0, 0, masks) == 0
  {
  }

  lemma {:induction false} ValueStep<T>(job: Job<T>, b: nat, k: nat, p: nat)
    requires ValidJob(job) && b < |job.x| && p < job.n
    ensures Value(job, b, 0, p) == job.x[b][p]
    ensures Value(job, b, k + 1, p) ==
      if p < Peer(p, k) < job.n
      then job.op(Value(job, b, k, Peer(p, k)), Value(job, b, k, p))
      else Value(job, b, k, p)
  {
  }

  lemma {:induction false} OwnPost<T>(job: Job<T>, s: State<T>, a: nat)
    requires ValidJob(job) && Shaped(job, s) && a < job.n && ProcOk(job, s, a)
    requires s.procs[a].pc == Head && InLoop(job.n, s.procs[a].level) && Peer(a, s.procs[a].level) < job.n
    ensures ProcOk(job, HeadStep(job, s, a), a)
  {
    hide Value, Peer, Masks, Parity, InLoop;
    var me := s.procs[a];
    LoopRuns(job.n, me.level);
    PeerBack(a, me.level);
  }

  lemma {:induction false} OwnPassOn<T>(job: Job<T>, s: State<T>, a: nat)
    requires ValidJob(job) && Shaped(job, s) && a < job.n && ProcOk(job, s, a)
    requires s.procs[a].pc == Head && !(InLoop(job.n, s.procs[a].level) && Peer(a, s.procs[a].level) < job.n)
    ensures ProcOk(job, HeadStep(job, s, a), a)
  {
    hide Value, Peer, Masks, Parity, InLoop;
    var me := s.procs[a];
    ValueStep(job, me.block, me.level, a);
    ParityStep(me.block, me.level, Masks(job.n));
    LoopRuns(job.n, me.level);
  }

  lemma {:induction false} OwnHead<T>(job: Job<T>, s: State<T>, a: nat)
    requires ValidJob(job) && Shaped(job, s) && Enabled(job, s, a) && ProcOk(job, s, a)
    requires s.procs[a].pc == Head
    ensures ProcOk(job, Step(job, s, a), a)
  {
    hide ProcOk, HeadStep;
    if InLoop(job.n, s.procs[a].level) && Peer(a, s.procs[a].level) < job.n {
      OwnPost(job, s, a);
    } else {
      OwnPassOn(job, s, a);
    }
  }

  lemma {:induction false} OwnNext<T>(job: Job<T>, s: State<T>, a: nat)
    requires ValidJob(job) && Shaped(job, s) && Enabled(job, s, a) && ProcOk(job, s, a)
    requires s.procs[a].pc in {ClearSelf, Parked, Store}
    ensures ProcOk(job, Step(job, s, a), a)
  {
    hide Value, Peer, Masks, Parity;
    var me := s.procs[a];
    ValueStep(job, me.block, me.level, a);
    ParityStep(me.block, me.level, Masks(job.n));
  }

  lemma {:induction false} OwnRead<T>(job: Job<T>, s: State<T>, a: nat)
    requires ValidJob(job) && Inv(job, s) && s.tagged && Enabled(job, s, a)
    requires s.procs[a].pc in {Combine, ClearPeer}
    ensures ProcOk(job, Step(job, s, a), a)
  {
    hide Value, Peer, Masks, Parity;
    var me := s.procs[a];
    assert ProcOk(job, s, a);
    PartnerParked(job, s, a);
    assert ProcOk(job, s, Peer(a, me.level));
    ValueStep(job, me.block, me.level, a);
    PeerBack(a, me.level);
  }

  lemma {:induction false} OwnOther<T>(job: Job<T>, s: State<T>, a: nat)
    requires ValidJob(job) && Shaped(job, s) && s.tagged && Enabled(job, s, a) && ProcOk(job, s, a)
    requires s.procs[a].pc in {Enter, Load, Await}
    ensures ProcOk(job, Step(job, s, a), a)
  {
    hide Value, Peer, Masks, Parity;
    var me := s.procs[a];
    if me.pc == Load {
      ValueStep(job, me.block, 0, a);
    }
  }

  /** The moving process keeps its own part of the invariant. */
  lemma {:induction false} OwnStep<T>(job: Job<T>, s: State<T>, a: nat)
    requires ValidJob(job) && Inv(job, s) && s.tagged && Enabled(job, s, a)
    ensures ProcOk(job, Step(job, s, a), a)
  {
    hide ProcOk, Step;
    assert ProcOk(job, s, a);
    match s.procs[a].pc
    case Head => OwnHead(job, s, a);
    case Combine => OwnRead(job, s, a);
    case ClearPeer => OwnRead(job, s, a);
    case Enter => OwnOther(job, s, a);
    case Load => OwnOther(job, s, a);
    case Await => OwnOther(job, s, a);
    case _ => OwnNext(job, s, a);
  }

  /** The others keep theirs: only a parked partner's flag is ever touched. */
  lemma {:induction false} OtherStep<T>(job: Job<T>, s: State<T>, a: nat, p: nat)
    requires ValidJob(job) && Inv(job, s) && s.tagged && Enabled(job, s, a) && p < job.n && p != a
    ensures ProcOk(job, Step(job, s, a), p)
  {
    hide Value, Peer, Masks, Parity, InLoop;
    assert ProcOk(job, s, a) && ProcOk(job, s, p);
    if s.procs[a].pc == ClearPeer {
      PartnerParked(job, s, a);
    }
  }

  lemma {:induction false} PairByReader<T>(job: Job<T>, s: State<T>, r: nat, k: nat, b: nat)
    requires ValidJob(job) && Inv(job, s) && s.tagged && Enabled(job, s, r) && IsPair(job.n, r, k)
    requires s.procs[r].pc !in {Head, Await, ClearPeer}
    ensures PairOk(job, Step(job, s, r), r, k, b)
  {
    hide Value, Peer, Masks, Parity;
    PeerBack(r, k);
    PeerBack(r, s.procs[r].level);
    assert PairOk(job, s, r, k, b) && ProcOk(job, s, r);
  }

  lemma {:induction false} PairByHead<T>(job: Job<T>, s: State<T>, r: nat, k: nat, b: nat)
    requires ValidJob(job) && Inv(job, s) && s.tagged && Enabled(job, s, r) && IsPair(job.n, r, k)
    requires s.procs[r].pc in {Head, Await, ClearPeer}
    ensures PairOk(job, Step(job, s, r), r, k, b)
  {
    hide Value, Peer, Masks, Parity, InLoop;
    var me := s.procs[r];
    PeerBack(r, k);
    PeerBack(r, me.level);
    assert PairOk(job, s, r, k, b) && ProcOk(job, s, r);
    if me.pc == Await {
      AwaitedIsPosted(job, s, r);
    } else if me.pc == ClearPeer {
      PartnerParked(job, s, r);
    }
  }

  lemma {:induction false} PairByPosting<T>(job: Job<T>, s: State<T>, r: nat, k: nat, b: nat)
    requires ValidJob(job) && Inv(job, s) && s.tagged && IsPair(job.n, r, k)
    requires s.procs[Peer(r, k)].pc == Head
    ensures PairOk(job, HeadStep(job, s, Peer(r, k)), r, k, b)
  {
    hide Value, Peer, Masks, Parity, InLoop;
    var q := Peer(r, k);
    PeerBack(r, k);
    LoopRuns(job.n, k);
    assert PairOk(job, s, r, k, b) && ProcOk(job, s, q);
  }

  lemma {:induction false} PairBySender<T>(job: Job<T>, s: State<T>, r: nat, k: nat, b: nat)
    requires ValidJob(job) && Inv(job, s) && s.tagged && IsPair(job.n, r, k) && Enabled(job, s, Peer(r, k))
    ensures PairOk(job, Step(job, s, Peer(r, k)), r, k, b)
  {
    hide Value, Peer, Masks, Parity, HeadStep;
    var q := Peer(r, k);
    if s.procs[q].pc == Head {
      PairByPosting(job, s, r, k, b);
    } else {
      PeerBack(r, k);
      PeerBack(q, s.procs[q].level);
      assert PairOk(job, s, r, k, b) && ProcOk(job, s, q);
    }
  }

  lemma {:induction false} PairByOther<T>(job: Job<T>, s: State<T>, a: nat, r: nat, k: nat, b: nat)
    requires ValidJob(job) && Inv(job, s) && s.tagged && Enabled(job, s, a) && IsPair(job.n, r, k)
    requires a != r && a != Peer(r, k)
    ensures PairOk(job, Step(job, s, a), r, k, b)
  {
    hide Value, Peer, Masks, Parity, InLoop;
    assert PairOk(job, s, r, k, b);
    if s.procs[a].pc == ClearPeer {
      PartnerParked(job, s, a);
      PeerBack(r, k);
      PeerBack(a, s.procs[a].level);
    }
  }

  /** Every handshake survives every step. */
  lemma {:induction false} PairStep<T>(job: Job<T>, s: State<T>, a: nat, r: nat, k: nat, b: nat)
    requires ValidJob(job) && Inv(job, s) && s.tagged && Enabled(job, s, a) && IsPair(job.n, r, k)
    ensures PairOk(job, Step(job, s, a), r, k, b)
  {
    hide PairOk, Step;
    assert |s.procs| == job.n;
    if a == Peer(r, k) {
      PairBySender(job, s, r, k, b);
    } else if a != r {
      PairByOther(job, s, a, r, k, b);
    } else if s.procs[r].pc in {Head, Await, ClearPeer} {
      PairByHead(job, s, r, k, b);
    } else {
      PairByReader(job, s, r, k, b);
    }
  }

  lemma {:induction false} OutStep<T>(job: Job<T>, s: State<T>, a: nat)
    requires ValidJob(job) && Inv(job, s) && s.tagged && Enabled(job, s, a)
    ensures OutOk(job, Step(job, s, a))
  {
    hide Value, Peer, Masks, Parity, InLoop;
    assert ProcOk(job, s, a);
  }

  /** The first process to arrive initialises the flags. */
  lemma {:induction false} FirstEnter<T>(job: Job<T>, s: State<T>, a: nat)
    requires ValidJob(job) && Inv(job, s) && !s.tagged && Enabled(job, s, a)
    ensures Inv(job, Step(job, s, a))
  {
    hide Value, Peer, Masks, Parity, InLoop;
    ParityStep(0, 0, Masks(job.n));
  }

  lemma {:induction false} StepKeepsInv<T>(job: Job<T>, s: State<T>, a: nat)
    requires ValidJob(job) && Inv(job, s) && Enabled(job, s, a)
    ensures Inv(job, Step(job, s, a))
  {
    if !s.tagged {
      FirstEnter(job, s, a);
    } else {
      var s' := Step(job, s, a);
      assert s'.tagged;
      hide ProcOk, PairOk, OutOk, Step;
      OutStep(job, s, a);
      forall p | 0 <= p < job.n
        ensures ProcOk(job, s', p)
      {
        if p == a {
          OwnStep(job, s, a);
        } else {
          OtherStep(job, s, a, p);
        }
      }
      forall r: nat, k: nat, b: nat | IsPair(job.n, r, k)
        ensures PairOk(job, s', r, k, b)
      {
        PairStep(job, s, a, r, k, b);
      }
    }
  }

  lemma {:induction false} RunKeepsInv<T>(job: Job<T>, s: State<T>, sched: seq<nat>)
    requires ValidJob(job) && Initial(job, s)
    ensures Inv(job, Run(job, s, sched))
    decreases |sched|
  {
    if sched != [] {
      RunKeepsInv(job, s, sched[..|sched| - 1]);
      var before := Run(job, s, sched[..|sched| - 1]);
      var p := sched[|sched| - 1];
      if Enabled(job, before, p) {
        StepKeepsInv(job, before, p);
      }
      hide Inv, Step, Enabled;
    }
  }

  // ---------------------------------------------------------------- main results

  /**
   In every run, a process combines from its partner's buffer only while the partner is
   parked at the same mask of the same block, with its flag naming the reader, and what it
   reads is the partner's value for that mask.
   */
  lemma {:induction false} ReadsOnlyParked<T>(job: Job<T>, s: State<T>, sched: seq<nat>, r: nat)
    requires ValidJob(job) && Initial(job, s) && r < job.n
    requires Run(job, s, sched).procs[r].pc == Combine
    ensures var s' := Run(job, s, sched);
      var me := s'.procs[r];
      var q := Peer(r, me.level);
      && q < job.n && me.block < |job.x|
      && s'.procs[q].pc == Parked && At(s'.procs[q], me.block, me.level) && s'.flag[q][me.parity] == r
      && s'.buf[q] == Value(job, me.block, me.level, q)
  {
    hide Value, Peer, Masks, Parity, Run;
    RunKeepsInv(job, s, sched);
    var s' := Run(job, s, sched);
    PartnerParked(job, s', r);
    assert ProcOk(job, s', r) && ProcOk(job, s', Peer(r, s'.procs[r].level));
  }

  ghost predicate AllFinished<T>(job: Job<T>, s: State<T>)
    requires Shaped(job, s)
  {
    forall p :: 0 <= p < job.n ==> s.procs[p].pc == Finished
  }

  /** The unfinished process that is furthest behind. */
  lemma {:induction false} Hindmost<T>(job: Job<T>, s: State<T>) returns (p: nat)
    requires ValidJob(job) && Shaped(job, s) && !AllFinished(job, s)
    ensures p < job.n && s.procs[p].pc != Finished
    ensures forall q :: 0 <= q < job.n && s.procs[q].pc != Finished ==>
      !Past(s.procs[p], s.procs[q].block, s.procs[q].level)
  {
    var n := job.n;
    var open := set q: nat | q < n && s.procs[q].pc != Finished;
    var x :| 0 <= x < n && s.procs[x].pc != Finished;
    assert x in open;
    var blocks := seq(n, q requires 0 <= q < n => s.procs[q].block);
    var levels := seq(n, q requires 0 <= q < n => s.procs[q].level);
    var low := Network.PickLowest(blocks, open);
    var last := set q | q in open && blocks[q] == blocks[low];
    assert low in last;
    p := Network.PickLowest(levels, last);
    forall q | 0 <= q < n && s.procs[q].pc != Finished
      ensures !Past(s.procs[p], s.procs[q].block, s.procs[q].level)
    {
      assert q in open;
      assert blocks[low] <= blocks[q];
      if blocks[q] == blocks[low] {
        assert q in last;
      }
    }
  }

  /** A waiting reader furthest behind, or else its partner, can go on. */
  lemma {:induction false} ReaderProgress<T>(job: Job<T>, s: State<T>, p: nat)
    requires ValidJob(job) && Inv(job, s) && s.tagged && p < job.n && s.procs[p].pc == Await
    requires forall q :: 0 <= q < job.n && s.procs[q].pc != Finished ==>
      !Past(s.procs[p], s.procs[q].block, s.procs[q].level)
    ensures exists q :: Enabled(job, s, q)
  {
    hide Value, Peer, Masks, Parity;
    var me := s.procs[p];
    var q := Peer(p, me.level);
    PeerBack(p, me.level);
    assert ProcOk(job, s, p) && ProcOk(job, s, q);
    assert PairOk(job, s, p, me.level, me.block);
    assert Enabled(job, s, p) || Enabled(job, s, q);
  }

  lemma {:induction false} SenderProgress<T>(job: Job<T>, s: State<T>, p: nat)
    requires ValidJob(job) && Inv(job, s) && s.tagged && p < job.n && s.procs[p].pc == Parked
    requires forall q :: 0 <= q < job.n && s.procs[q].pc != Finished ==>
      !Past(s.procs[p], s.procs[q].block, s.procs[q].level)
    ensures exists q :: Enabled(job, s, q)
  {
    hide Value, Peer, Masks, Parity;
    var me := s.procs[p];
    var r := Peer(p, me.level);
    PeerBack(p, me.level);
    assert ProcOk(job, s, p) && ProcOk(job, s, r);
    assert PairOk(job, s, r, me.level, me.block);
    assert Enabled(job, s, p) || Enabled(job, s, r);
  }

  /** No reachable state is deadlocked: some process can move until all have finished. */
  lemma {:induction false} NeverStuck<T>(job: Job<T>, s: State<T>, sched: seq<nat>)
    requires ValidJob(job) && Initial(job, s)
    ensures var s' := Run(job, s, sched); AllFinished(job, s') || exists p :: Enabled(job, s', p)
  {
    hide Run, Value, Peer, Masks, Parity;
    RunKeepsInv(job, s, sched);
    var s' := Run(job, s, sched);
    if !s'.tagged {
      assert Enabled(job, s', 0);
    } else if !AllFinished(job, s') {
      var p := Hindmost(job, s');
      assert ProcOk(job, s', p);
      if s'.procs[p].pc == Await {
        ReaderProgress(job, s', p);
      } else if s'.procs[p].pc == Parked {
        SenderProgress(job, s', p);
      } else {
        assert Enabled(job, s', p);
      }
    }
  }

  // ---------------------------------------------------------------- termination

  ghost function PcLeft(pc: Pc): nat {
    match pc
    case Enter => 8 case Load => 7 case Head => 6 case Await => 5 case Parked => 5
    case Combine => 4 case ClearPeer => 3 case ClearSelf => 2 case Store => 1 case Finished => 0
  }

  /** A bound on the steps a process still has to take. */
  ghost function Left(blocks: nat, masks: nat, me: Proc): nat
    requires me.block <= blocks && me.level <= masks
  {
    (blocks - me.block) * (9 * masks + 18) + 9 * (masks - me.level) + PcLeft(me.pc)
  }

  ghost function LeftFrom<T>(job: Job<T>, s: State<T>, p: nat): nat
    requires ValidJob(job) && Inv(job, s) && p <= job.n
    decreases job.n - p
  {
    if p == job.n then 0
    else
      assert s.tagged ==> ProcOk(job, s, p);
      Left(|job.x|, Masks(job.n), s.procs[p]) + LeftFrom(job, s, p + 1)
  }

  lemma {:induction false} BlockShrinks(blocks: nat, b: nat, w: nat)
    requires b < blocks
    ensures (blocks - b) * w == (blocks - (b + 1)) * w + w
  {
  }

  lemma {:induction false} HeadShrinks<T>(job: Job<T>, s: State<T>, a: nat)
    requires ValidJob(job) && Shaped(job, s) && a < job.n && s.procs[a].pc == Head
    requires s.procs[a].block <= |job.x| && s.procs[a].level <= Masks(job.n)
    ensures var me, me' := s.procs[a], HeadStep(job, s, a).procs[a];
      && me'.block <= |job.x| && me'.level <= Masks(job.n)
      && Left(|job.x|, Masks(job.n), me') < Left(|job.x|, Masks(job.n), me)
  {
    hide Peer, Masks, InLoop, SetFlag;
    LoopRuns(job.n, s.procs[a].level);
  }

  lemma {:induction false} OwnShrinks<T>(job: Job<T>, s: State<T>, a: nat)
    requires ValidJob(job) && Inv(job, s) && Enabled(job, s, a)
    ensures var me, me' := s.procs[a], Step(job, s, a).procs[a];
      && me.block <= |job.x| && me.level <= Masks(job.n) && me'.block <= |job.x| && me'.level <= Masks(job.n)
      && Left(|job.x|, Masks(job.n), me') < Left(|job.x|, Masks(job.n), me)
  {
    hide Value, Peer, Masks, Parity, SetFlag, HeadStep, BufferInv;
    assert s.tagged ==> ProcOk(job, s, a);
    var me := s.procs[a];
    if me.pc == Head {
      HeadShrinks(job, s, a);
    } else if me.pc == Store {
      BlockShrinks(|job.x|, me.block, 9 * Masks(job.n) + 18);
    }
  }

  lemma {:induction false} OthersStay<T>(job: Job<T>, s: State<T>, a: nat, p: nat)
    requires ValidJob(job) && Shaped(job, s) && Enabled(job, s, a) && p < job.n && p != a
    ensures Step(job, s, a).procs[p] == s.procs[p]
  {
  }

  lemma {:induction false} StepShrinks<T>(job: Job<T>, s: State<T>, a: nat, p: nat)
    requires ValidJob(job) && Inv(job, s) && Enabled(job, s, a) && Inv(job, Step(job, s, a)) && p <= job.n
    ensures LeftFrom(job, Step(job, s, a), p) <= LeftFrom(job, s, p)
    ensures p <= a ==> LeftFrom(job, Step(job, s, a), p) < LeftFrom(job, s, p)
    decreases job.n - p
  {
    hide Step, Left, Masks;
    assert Shaped(job, s);
    if p < job.n {
      StepShrinks(job, s, a, p + 1);
      if p == a {
        OwnShrinks(job, s, a);
      } else {
        OthersStay(job, s, a, p);
      }
    }
  }

  lemma {:induction false} FinishFrom<T>(job: Job<T>, s: State<T>, sched: seq<nat>) returns (more: seq<nat>)
    requires ValidJob(job) && Initial(job, s) && Inv(job, Run(job, s, sched))
    ensures sched <= more && AllFinished(job, Run(job, s, more))
    decreases LeftFrom(job, Run(job, s, sched), 0)
  {
    var s' := Run(job, s, sched);
    if AllFinished(job, s') {
      more := sched;
    } else {
      NeverStuck(job, s, sched);
      var p :| Enabled(job, s', p);
      StepKeepsInv(job, s', p);
      StepShrinks(job, s', p, 0);
      assert (sched + [p])[..|sched|] == sched;
      assert Run(job, s, sched + [p]) == Step(job, s', p);
      more := FinishFrom(job, s, sched + [p]);
    }
  }

  /** Every step uses up part of a fixed bound, so every run can be brought to its end. */
  lemma {:induction false} CanFinish<T>(job: Job<T>, s: State<T>, sched: seq<nat>) returns (more: seq<nat>)
    requires ValidJob(job) && Initial(job, s)
    ensures sched <= more && AllFinished(job, Run(job, s, more))
  {
    RunKeepsInv(job, s, sched);
    more := FinishFrom(job, s, sched);
  }

  lemma {:induction false} ValueIsDoubling<T>(job: Job<T>, b: nat, k: nat, p: nat)
    requires ValidJob(job) && b < |job.x| && p < job.n && Low(p, k) == 0
    ensures Value(job, b, k, p) == Doubling(job.op, job.x[b], p, k)
    decreases k
  {
    hide Low, Bit, Pow2;
    if k > 0 {
      UpperHalf(p, k - 1);
      FlipValue(p, k - 1);
      ValueIsDoubling(job, b, k - 1, p);
      if p + Pow2(k - 1) < job.n {
        ValueIsDoubling(job, b, k - 1, p + Pow2(k - 1));
      }
    }
  }

  /**
   When all processes have finished, the root has copied out, block by block, the fold of
   every process's contribution, each once: from the highest rank down for an associative
   operation, and in rank order if it also commutes.
   */
  lemma {:induction false} ReduceResult<T(!new)>(job: Job<T>, s: State<T>, sched: seq<nat>)
    requires ValidJob(job) && Initial(job, s) && Associative(job.op)
    ensures var s' := Run(job, s, sched);
      AllFinished(job, s') ==>
        && |s'.out| == |job.x|
        && (forall b :: 0 <= b < |job.x| ==> s'.out[b] == Fold(job.op, Reverse(job.x[b])))
        && (Commutative(job.op) ==> forall b :: 0 <= b < |job.x| ==> s'.out[b] == Fold(job.op, job.x[b]))
  {
    hide Run, Value, Fold, Reverse;
    RunKeepsInv(job, s, sched);
    var s' := Run(job, s, sched);
    if AllFinished(job, s') {
      assert ProcOk(job, s', 0);
      forall b | 0 <= b < |job.x|
        ensures Value(job, b, Masks(job.n), 0) == Fold(job.op, Reverse(job.x[b]))
        ensures Commutative(job.op) ==> Value(job, b, Masks(job.n), 0) == Fold(job.op, job.x[b])
      {
        LowOfZero(Masks(job.n));
        ValueIsDoubling(job, b, Masks(job.n), 0);
        DoublingIsFold(job.op, job.x[b], Masks(job.n));
      }
    }
  }
}
