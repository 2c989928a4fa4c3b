/**
 Message passing between the processes of one collective operation.

 Every process runs its own script, a sequence of rounds.  In a round it may start one
 send (`ulm_isend`), complete one receive (`ulm_irecv` and `ulm_wait`) and wait for the
 send.  Messages travel on FIFO channels, one for each ordered pair of processes (one
 tag).  Nothing synchronises the processes: a schedule picks whose turn it is, and two
 processes may be any number of rounds apart.

 The results are for every schedule.  A script set whose rounds pair up behaves as if all
 processes ran each round together (`Sync`), whatever the interleaving and whether sends
 are buffered or not; and no reachable state is stuck, even if every send is synchronous.
 */
module Network {

  datatype Option<+T> = None | Some(value: T)

  /** One half of a message: the other process, and how the data is packed or unpacked. */
  datatype Half<+A> = Half(peer: nat, how: A)

  datatype Round<+A> = Round(out: Option<Half<A>>, inc: Option<Half<A>>)

  /**
   `sendFirst` tells whether a process waits for its send before it receives (blocking
   `ulm_send`), or receives while its send is in flight.  `fits(how, m)` says that a posted
   receive accepts message `m`; a message of another length is an error in the source.
   */
  datatype Net<!A, !S, !M> = Net(
    scripts: seq<seq<Round<A>>>,
    sendFirst: bool,
    pack: (A, S) -> M,
    unpack: (A, S, M) -> S,
    fits: (A, M) -> bool)

  /** `pc` counts three actions a round; `chan[p][q]` is what is in flight from p to q. */
  datatype Config<S, M> = Config(pc: seq<nat>, local: seq<S>, chan: seq<seq<seq<M>>>)

  datatype Action = Send | Receive | AwaitSend

  function Idle<A>(): Round<A> { Round(None, None) }

  /** A process that has left its loop takes no part in the remaining rounds. */
  function RoundAt<A>(script: seq<Round<A>>, r: nat): Round<A> {
    if r < |script| then script[r] else Idle()
  }

  function OutAt<A, S, M>(net: Net<A, S, M>, p: nat, r: nat): Option<Half<A>>
    requires p < |net.scripts|
  {
    RoundAt(net.scripts[p], r).out
  }

  function InAt<A, S, M>(net: Net<A, S, M>, p: nat, r: nat): Option<Half<A>>
    requires p < |net.scripts|
  {
    RoundAt(net.scripts[p], r).inc
  }

  function ActionAt(sendFirst: bool, pc: nat): Action {
    if pc % 3 == 0 then Send else if (pc % 3 == 1) == sendFirst then AwaitSend else Receive
  }

  // ---------------------------------------------------------------- the machine

  ghost predicate WellFormed<A, S, M>(net: Net<A, S, M>, c: Config<S, M>) {
    var n := |net.scripts|;
    && |c.pc| == |c.local| == |c.chan| == n
    && (forall p :: 0 <= p < n ==> |c.chan[p]| == n)
    && (forall p :: 0 <= p < n ==> c.pc[p] <= 3 * |net.scripts[p]|)
  }

  /** Sends and receives name existing processes and pair up, round by round. */
  ghost predicate Consistent<A, S, M>(net: Net<A, S, M>) {
    && (forall p, r: nat {:trigger SendMatched(net, p, r)} ::
          0 <= p < |net.scripts| && OutAt(net, p, r).Some? ==> SendMatched(net, p, r))
    && (forall p, r: nat {:trigger ReceiveMatched(net, p, r)} ::
          0 <= p < |net.scripts| && InAt(net, p, r).Some? ==> ReceiveMatched(net, p, r))
  }

  ghost predicate SendMatched<A, S, M>(net: Net<A, S, M>, p: nat, r: nat)
    requires p < |net.scripts| && OutAt(net, p, r).Some?
  {
    var q := OutAt(net, p, r).value.peer;
    q < |net.scripts| && InAt(net, q, r).Some? && InAt(net, q, r).value.peer == p
  }

  ghost predicate ReceiveMatched<A, S, M>(net: Net<A, S, M>, p: nat, r: nat)
    requires p < |net.scripts| && InAt(net, p, r).Some?
  {
    var q := InAt(net, p, r).value.peer;
    q < |net.scripts| && OutAt(net, q, r).Some? && OutAt(net, q, r).value.peer == p
  }

  function Start<A, S, M>(net: Net<A, S, M>, init: seq<S>): (c: Config<S, M>) {
    var n := |net.scripts|;
    Config(seq(n, p => 0), init, seq(n, p => seq(n, q => [])))
  }

  ghost predicate Done<A, S, M>(net: Net<A, S, M>, c: Config<S, M>)
    requires WellFormed(net, c)
  {
    forall p :: 0 <= p < |net.scripts| ==> c.pc[p] == 3 * |net.scripts[p]|
  }

  /** With `rendezvous`, a send is complete only when its message has been received. */
  ghost predicate CanMove<A, S, M>(net: Net<A, S, M>, c: Config<S, M>, p: nat, rendezvous: bool)
    requires WellFormed(net, c) && Consistent(net)
  {
    p < |net.scripts| && c.pc[p] < 3 * |net.scripts[p]| &&
    var r := c.pc[p] / 3;
    match ActionAt(net.sendFirst, c.pc[p])
    case Send => true
    case Receive =>
      (match InAt(net, p, r)
       case None => true
       case Some(Half(q, how)) =>
         assert ReceiveMatched(net, p, r);
         c.chan[q][p] != [] && net.fits(how, c.chan[q][p][0]))
    case AwaitSend =>
      (match OutAt(net, p, r)
       case None => true
       case Some(Half(q, _)) =>
         assert SendMatched(net, p, r);
         rendezvous ==> c.chan[p][q] == [])
  }

  function Push<M>(chan: seq<seq<seq<M>>>, p: nat, q: nat, m: M): seq<seq<seq<M>>>
    requires p < |chan| && q < |chan[p]|
  {
    chan[p := chan[p][q := chan[p][q] + [m]]]
  }

  function Pop<M>(chan: seq<seq<seq<M>>>, p: nat, q: nat): seq<seq<seq<M>>>
    requires p < |chan| && q < |chan[p]| && chan[p][q] != []
  {
    chan[p := chan[p][q := chan[p][q][1..]]]
  }

  ghost function Move<A, S, M>(net: Net<A, S, M>, c: Config<S, M>, p: nat): (c': Config<S, M>)
    requires WellFormed(net, c) && Consistent(net)
    requires CanMove(net, c, p, false)
    ensures WellFormed(net, c')
  {
    var r := c.pc[p] / 3;
    var next := c.(pc := c.pc[p := c.pc[p] + 1]);
    match ActionAt(net.sendFirst, c.pc[p])
    case Send =>
      (match OutAt(net, p, r)
       case None => next
       case Some(Half(q, how)) =>
         assert SendMatched(net, p, r);
         next.(chan := Push(c.chan, p, q, net.pack(how, c.local[p]))))
    case Receive =>
      (match InAt(net, p, r)
       case None => next
       case Some(Half(q, how)) =>
         assert ReceiveMatched(net, p, r);
         next.(local := c.local[p := net.unpack(how, c.local[p], c.chan[q][p][0])],
               chan := Pop(c.chan, q, p)))
    case AwaitSend => next
  }

  /** A schedule names the process to run next; a process that cannot move stays put. */
  ghost function Exec<A, S, M>(net: Net<A, S, M>, c: Config<S, M>, sched: seq<nat>): (c': Config<S, M>)
    requires WellFormed(net, c) && Consistent(net)
    ensures WellFormed(net, c')
    decreases |sched|
  {
    if sched == [] then c
    else
      var before := Exec(net, c, sched[..|sched| - 1]);
      var p := sched[|sched| - 1];
      if CanMove(net, before, p, false) then Move(net, before, p) else before
  }

  // ---------------------------------------------------------------- round by round

  /** Process p's state after round `r`, when all processes run that round together. */
  ghost function Next<A, S, M>(net: Net<A, S, M>, local: seq<S>, r: nat, p: nat): S
    requires Consistent(net) && |local| == |net.scripts| && p < |local|
  {
    match InAt(net, p, r)
    case None => local[p]
    case Some(Half(q, how)) =>
      assert ReceiveMatched(net, p, r);
      net.unpack(how, local[p], net.pack(OutAt(net, q, r).value.how, local[q]))
  }

  ghost function SyncStep<A, S, M>(net: Net<A, S, M>, local: seq<S>, r: nat): (next: seq<S>)
    requires Consistent(net) && |local| == |net.scripts|
    ensures |next| == |local|
  {
    seq(|local|, p requires 0 <= p < |local| => Next(net, local, r, p))
  }

  ghost function Sync<A, S, M>(net: Net<A, S, M>, init: seq<S>, r: nat): (local: seq<S>)
    requires Consistent(net) && |init| == |net.scripts|
    ensures |local| == |init|
  {
    if r == 0 then init else SyncStep(net, Sync(net, init, r - 1), r - 1)
  }

  /** `t[0]`, `t[1]`, ... are the states before each round of the round-by-round run. */
  ghost predicate IsTrace<A, S, M>(net: Net<A, S, M>, init: seq<S>, t: seq<seq<S>>)
    requires Consistent(net) && |init| == |net.scripts|
  {
    && |t| > 0 && t[0] == init
    && (forall r :: 0 <= r < |t| ==> |t[r]| == |init|)
    && (forall r {:trigger StepAt(net, t, r)} :: 0 <= r < |t| - 1 ==> StepAt(net, t, r))
  }

  ghost predicate StepAt<A, S, M>(net: Net<A, S, M>, t: seq<seq<S>>, r: nat)
    requires Consistent(net) && r + 1 < |t| && |t[r]| == |t[r + 1]| == |net.scripts|
  {
    forall p :: 0 <= p < |net.scripts| ==> t[r + 1][p] == Next(net, t[r], r, p)
  }

  lemma {:induction false} TraceNext<A, S, M>(net: Net<A, S, M>, init: seq<S>, t: seq<seq<S>>, r: nat, p: nat)
    requires Consistent(net) && |init| == |net.scripts| && IsTrace(net, init, t)
    requires r + 1 < |t| && p < |net.scripts|
    ensures InAt(net, p, r).None? ==> t[r + 1][p] == t[r][p]
    ensures InAt(net, p, r).Some? ==>
      var q := InAt(net, p, r).value.peer;
      && q < |net.scripts| && OutAt(net, q, r).Some? && OutAt(net, q, r).value.peer == p
      && t[r + 1][p] == net.unpack(InAt(net, p, r).value.how, t[r][p], net.pack(OutAt(net, q, r).value.how, t[r][q]))
  {
    assert StepAt(net, t, r);
    assert t[r + 1][p] == Next(net, t[r], r, p);
    if InAt(net, p, r).Some? {
      assert ReceiveMatched(net, p, r);
    }
  }

  ghost function Trace<A, S, M>(net: Net<A, S, M>, init: seq<S>): (t: seq<seq<S>>)
    requires Consistent(net) && |init| == |net.scripts|
    ensures IsTrace(net, init, t) && |t| == MaxLength(net.scripts) + 1
    ensures forall r :: 0 <= r < |t| ==> t[r] == Sync(net, init, r)
  {
    var t := seq(MaxLength(net.scripts) + 1, r requires 0 <= r => Sync(net, init, r));
    assert forall r :: 0 <= r < |t| - 1 ==> StepAt(net, t, r);
    t
  }

  /** Every posted receive accepts the message that belongs to it. */
  ghost predicate Accepting<A, S, M>(net: Net<A, S, M>, init: seq<S>)
    requires Consistent(net) && |init| == |net.scripts|
  {
    forall p, r: nat :: 0 <= p < |net.scripts| && InAt(net, p, r).Some? ==> Accepts(net, init, p, r)
  }

  ghost predicate Accepts<A, S, M>(net: Net<A, S, M>, init: seq<S>, p: nat, r: nat)
    requires Consistent(net) && |init| == |net.scripts|
    requires p < |net.scripts| && InAt(net, p, r).Some?
  {
    assert ReceiveMatched(net, p, r);
    net.fits(InAt(net, p, r).value.how, MessageAt(net, init, InAt(net, p, r).value.peer, r))
  }

  /** It is enough to look at the rounds that the scripts have. */
  lemma {:induction false} AcceptingFromTrace<A, S, M>(net: Net<A, S, M>, init: seq<S>)
    requires Consistent(net) && |init| == |net.scripts|
    requires forall p, r: nat {:trigger AcceptsIn(net, Trace(net, init), p, r)} ::
      0 <= p < |net.scripts| && r < MaxLength(net.scripts) && InAt(net, p, r).Some? ==>
        AcceptsIn(net, Trace(net, init), p, r)
    ensures Accepting(net, init)
  {
    forall p, r: nat | 0 <= p < |net.scripts| && InAt(net, p, r).Some?
      ensures Accepts(net, init, p, r)
    {
      assert r < |net.scripts[p]| <= MaxLength(net.scripts);
      assert AcceptsIn(net, Trace(net, init), p, r);
      assert ReceiveMatched(net, p, r);
    }
  }

  ghost predicate AcceptsIn<A, S, M>(net: Net<A, S, M>, t: seq<seq<S>>, p: nat, r: nat)
    requires Consistent(net) && p < |net.scripts| && InAt(net, p, r).Some?
    requires r < |t| && |t[r]| == |net.scripts|
  {
    assert ReceiveMatched(net, p, r);
    var q := InAt(net, p, r).value.peer;
    net.fits(InAt(net, p, r).value.how, net.pack(OutAt(net, q, r).value.how, t[r][q]))
  }

  ghost function MessageAt<A, S, M>(net: Net<A, S, M>, init: seq<S>, q: nat, r: nat): M
    requires Consistent(net) && |init| == |net.scripts|
    requires q < |net.scripts| && OutAt(net, q, r).Some?
  {
    net.pack(OutAt(net, q, r).value.how, Sync(net, init, r)[q])
  }

  /** Blocking sends run down a ranking within each round, so they cannot wait in a circle. */
  ghost predicate Downhill<A, S, M>(net: Net<A, S, M>, height: seq<nat>) {
    net.sendFirst ==>
      |height| == |net.scripts| &&
      forall p, r: nat :: 0 <= p < |net.scripts| && OutAt(net, p, r).Some? ==>
        var q := OutAt(net, p, r).value.peer; q < |height| && height[q] < height[p]
  }

  function MaxLength<A>(scripts: seq<seq<Round<A>>>): (m: nat)
    ensures forall p :: 0 <= p < |scripts| ==> |scripts[p]| <= m
  {
    if scripts == [] then 0
    else
      var m := MaxLength(scripts[1..]);
      assert forall p :: 1 <= p < |scripts| ==> scripts[p] == scripts[1..][p - 1];
      if |scripts[0]| > m then |scripts[0]| else m
  }

  // ---------------------------------------------------------------- the invariant

  /** Rounds whose send has been started, and rounds whose receive has been completed. */
  function SentRounds(pc: nat): nat { if pc % 3 == 0 then pc / 3 else pc / 3 + 1 }

  function ReceivedRounds(sendFirst: bool, pc: nat): nat {
    if !sendFirst && pc % 3 == 2 then pc / 3 + 1 else pc / 3
  }

  /** Everything `p` sends to `q` in the first `r` rounds, in order. */
  ghost function History<A, S, M>(net: Net<A, S, M>, init: seq<S>, p: nat, q: nat, r: nat): (h: seq<M>)
    requires Consistent(net) && |init| == |net.scripts|
    requires p < |net.scripts|
  {
    if r == 0 then []
    else
      var h := History(net, init, p, q, r - 1);
      if OutAt(net, p, r - 1).Some? && OutAt(net, p, r - 1).value.peer == q
      then h + [MessageAt(net, init, p, r - 1)]
      else h
  }

  lemma {:induction false} HistoryMonotone<A, S, M>(net: Net<A, S, M>, init: seq<S>, p: nat, q: nat, a: nat, b: nat)
    requires Consistent(net) && |init| == |net.scripts|
    requires p < |net.scripts| && a <= b
    ensures History(net, init, p, q, a) <= History(net, init, p, q, b)
    decreases b
  {
    if a < b {
      HistoryMonotone(net, init, p, q, a, b - 1);
    }
  }

  /** What has been sent is what has been received plus what is in flight, in that order. */
  ghost predicate Conserved<A, S, M>(net: Net<A, S, M>, init: seq<S>, c: Config<S, M>, p: nat, q: nat)
    requires Consistent(net) && |init| == |net.scripts|
    requires WellFormed(net, c)
    requires p < |net.scripts| && q < |net.scripts|
  {
    History(net, init, p, q, SentRounds(c.pc[p])) ==
    History(net, init, p, q, ReceivedRounds(net.sendFirst, c.pc[q])) + c.chan[p][q]
  }

  ghost predicate OnPlan<A, S, M>(net: Net<A, S, M>, init: seq<S>, c: Config<S, M>, p: nat)
    requires Consistent(net) && |init| == |net.scripts|
    requires WellFormed(net, c)
    requires p < |net.scripts|
  {
    c.local[p] == Sync(net, init, ReceivedRounds(net.sendFirst, c.pc[p]))[p]
  }

  ghost predicate Inv<A, S, M>(net: Net<A, S, M>, init: seq<S>, c: Config<S, M>)
    requires Consistent(net) && |init| == |net.scripts|
  {
    && WellFormed(net, c)
    && (forall p :: 0 <= p < |net.scripts| ==> OnPlan(net, init, c, p))
    && (forall p, q :: 0 <= p < |net.scripts| && 0 <= q < |net.scripts| ==> Conserved(net, init, c, p, q))
  }

  /** What a send does to a channel. */
  lemma {:induction false} SendEffect<A, S, M>(net: Net<A, S, M>, c: Config<S, M>, p: nat, a: nat, b: nat)
    requires Consistent(net) && WellFormed(net, c) && CanMove(net, c, p, false)
    requires ActionAt(net.sendFirst, c.pc[p]) == Send && a < |net.scripts| && b < |net.scripts|
    ensures p < |net.scripts|
    ensures var c', r := Move(net, c, p), c.pc[p] / 3;
      && c.pc[p] == 3 * r && c'.pc == c.pc[p := 3 * r + 1]
      && c'.chan[a][b] ==
         if a == p && OutAt(net, p, r).Some? && OutAt(net, p, r).value.peer == b
         then c.chan[a][b] + [net.pack(OutAt(net, p, r).value.how, c.local[p])] else c.chan[a][b]
  {
    hide RoundAt;
    if OutAt(net, p, c.pc[p] / 3).Some? {
      assert SendMatched(net, p, c.pc[p] / 3);
    }
  }

  lemma {:induction false} SendConserves<A, S, M>(net: Net<A, S, M>, init: seq<S>, c: Config<S, M>, p: nat, a: nat,
                                                  b: nat)
    requires Consistent(net) && |init| == |net.scripts|
    requires WellFormed(net, c) && CanMove(net, c, p, false)
    requires ActionAt(net.sendFirst, c.pc[p]) == Send
    requires a < |net.scripts| && b < |net.scripts|
    requires OnPlan(net, init, c, p) && Conserved(net, init, c, a, b)
    ensures Conserved(net, init, Move(net, c, p), a, b)
  {
    hide Consistent, Move, CanMove, Sync, RoundAt;
    SendEffect(net, c, p, a, b);
    var c', r := Move(net, c, p), c.pc[p] / 3;
    assert ReceivedRounds(net.sendFirst, c'.pc[b]) == ReceivedRounds(net.sendFirst, c.pc[b]);
    if a == p {
      var got := History(net, init, p, b, ReceivedRounds(net.sendFirst, c.pc[b]));
      if OutAt(net, p, r).Some? && OutAt(net, p, r).value.peer == b {
        var m := MessageAt(net, init, p, r);
        assert (got + c.chan[p][b]) + [m] == got + (c.chan[p][b] + [m]);
      }
    }
  }

  /** The message at the head of the channel is the one this receive is paired with. */
  lemma {:induction false} HeadIsPaired<A, S, M>(net: Net<A, S, M>, init: seq<S>, c: Config<S, M>, p: nat, q: nat)
    requires Consistent(net) && |init| == |net.scripts|
    requires Inv(net, init, c) && p < |net.scripts| && q < |net.scripts|
    requires c.pc[p] < 3 * |net.scripts[p]| && ActionAt(net.sendFirst, c.pc[p]) == Receive
    requires InAt(net, p, c.pc[p] / 3).Some? && InAt(net, p, c.pc[p] / 3).value.peer == q
    ensures OutAt(net, q, c.pc[p] / 3).Some? && OutAt(net, q, c.pc[p] / 3).value.peer == p
    ensures c.chan[q][p] != [] <==> SentRounds(c.pc[q]) > c.pc[p] / 3
    ensures c.chan[q][p] != [] ==> c.chan[q][p][0] == MessageAt(net, init, q, c.pc[p] / 3)
  {
    var r := c.pc[p] / 3;
    assert ReceiveMatched(net, p, r);
    assert Conserved(net, init, c, q, p);
    assert ReceivedRounds(net.sendFirst, c.pc[p]) == r;
    var sent := SentRounds(c.pc[q]);
    if sent <= r {
      HistoryMonotone(net, init, q, p, sent, r);
    } else {
      HistoryMonotone(net, init, q, p, r + 1, sent);
      var h := History(net, init, q, p, r);
      assert History(net, init, q, p, r + 1) == h + [MessageAt(net, init, q, r)];
      assert History(net, init, q, p, sent)[|h|] == MessageAt(net, init, q, r);
    }
  }

  /** What a receive does to a channel. */
  lemma {:induction false} ReceiveEffect<A, S, M>(net: Net<A, S, M>, c: Config<S, M>, p: nat, a: nat, b: nat)
    requires Consistent(net) && WellFormed(net, c) && CanMove(net, c, p, false)
    requires ActionAt(net.sendFirst, c.pc[p]) == Receive && a < |net.scripts| && b < |net.scripts|
    ensures p < |net.scripts| && c.pc[p] < 3 * |net.scripts[p]|
    ensures var c', r := Move(net, c, p), c.pc[p] / 3;
      && c'.pc == c.pc[p := c.pc[p] + 1]
      && (if b == p && InAt(net, p, r).Some? && InAt(net, p, r).value.peer == a
          then c.chan[a][b] != [] && c'.chan[a][b] == c.chan[a][b][1..] else c'.chan[a][b] == c.chan[a][b])
  {
    hide RoundAt;
    if InAt(net, p, c.pc[p] / 3).Some? {
      assert ReceiveMatched(net, p, c.pc[p] / 3);
    }
  }

  lemma {:induction false} ReceiveConserves<A, S, M>(net: Net<A, S, M>, init: seq<S>, c: Config<S, M>, p: nat,
                                                     a: nat, b: nat)
    requires Consistent(net) && |init| == |net.scripts|
    requires Inv(net, init, c) && CanMove(net, c, p, false)
    requires ActionAt(net.sendFirst, c.pc[p]) == Receive
    requires a < |net.scripts| && b < |net.scripts|
    ensures Conserved(net, init, Move(net, c, p), a, b)
  {
    hide Move, CanMove, Sync, RoundAt, OnPlan;
    assert Conserved(net, init, c, a, b);
    ReceiveEffect(net, c, p, a, b);
    var c', r := Move(net, c, p), c.pc[p] / 3;
    assert ReceivedRounds(net.sendFirst, c.pc[p]) == r && ReceivedRounds(net.sendFirst, c'.pc[p]) == r + 1;
    assert SentRounds(c'.pc[a]) == SentRounds(c.pc[a]);
    if b == p {
      var h := History(net, init, a, p, r);
      if OutAt(net, a, r).Some? && OutAt(net, a, r).value.peer == p {
        assert SendMatched(net, a, r);
        HeadIsPaired(net, init, c, p, a);
        var m := MessageAt(net, init, a, r);
        assert c.chan[a][p] == [m] + c'.chan[a][p];
        assert h + ([m] + c'.chan[a][p]) == (h + [m]) + c'.chan[a][p];
      } else if InAt(net, p, r).Some? {
        assert ReceiveMatched(net, p, r);
      }
    }
  }

  lemma {:induction false} AwaitConserves<A, S, M>(net: Net<A, S, M>, init: seq<S>, c: Config<S, M>, p: nat, a: nat,
                                                   b: nat)
    requires Consistent(net) && |init| == |net.scripts|
    requires WellFormed(net, c) && CanMove(net, c, p, false)
    requires ActionAt(net.sendFirst, c.pc[p]) == AwaitSend
    requires a < |net.scripts| && b < |net.scripts| && Conserved(net, init, c, a, b)
    ensures Conserved(net, init, Move(net, c, p), a, b)
  {
    var c' := Move(net, c, p);
    assert SentRounds(c'.pc[a]) == SentRounds(c.pc[a]);
    assert ReceivedRounds(net.sendFirst, c'.pc[b]) == ReceivedRounds(net.sendFirst, c.pc[b]);
  }

  lemma {:induction false} MoveStaysOnPlan<A, S, M>(net: Net<A, S, M>, init: seq<S>, c: Config<S, M>, p: nat, a: nat)
    requires Consistent(net) && |init| == |net.scripts|
    requires Inv(net, init, c) && CanMove(net, c, p, false)
    requires a < |net.scripts|
    ensures OnPlan(net, init, Move(net, c, p), a)
  {
    assert OnPlan(net, init, c, a);
    var c' := Move(net, c, p);
    var r := c.pc[p] / 3;
    if a == p && ActionAt(net.sendFirst, c.pc[p]) == Receive {
      assert ReceivedRounds(net.sendFirst, c.pc[p]) == r && ReceivedRounds(net.sendFirst, c'.pc[p]) == r + 1;
      if InAt(net, p, r).Some? {
        assert ReceiveMatched(net, p, r);
        HeadIsPaired(net, init, c, p, InAt(net, p, r).value.peer);
      }
    } else if a == p {
      assert ReceivedRounds(net.sendFirst, c'.pc[p]) == ReceivedRounds(net.sendFirst, c.pc[p]);
    }
  }

  lemma {:induction false} MoveKeepsInv<A, S, M>(net: Net<A, S, M>, init: seq<S>, c: Config<S, M>, p: nat)
    requires Consistent(net) && |init| == |net.scripts|
    requires Inv(net, init, c) && CanMove(net, c, p, false)
    ensures Inv(net, init, Move(net, c, p))
  {
    forall a | 0 <= a < |net.scripts|
      ensures OnPlan(net, init, Move(net, c, p), a)
    {
      MoveStaysOnPlan(net, init, c, p, a);
    }
    forall a, b | 0 <= a < |net.scripts| && 0 <= b < |net.scripts|
      ensures Conserved(net, init, Move(net, c, p), a, b)
    {
      assert Conserved(net, init, c, a, b);
      match ActionAt(net.sendFirst, c.pc[p])
      case Send =>
        assert OnPlan(net, init, c, p);
        SendConserves(net, init, c, p, a, b);
      case Receive => ReceiveConserves(net, init, c, p, a, b);
      case AwaitSend => AwaitConserves(net, init, c, p, a, b);
    }
  }

  /** Every state of every run satisfies the invariant. */
  lemma {:induction false} ReachableInv<A, S, M>(net: Net<A, S, M>, init: seq<S>, sched: seq<nat>)
    requires Consistent(net) && |init| == |net.scripts|
    ensures Inv(net, init, Exec(net, Start(net, init), sched))
    decreases |sched|
  {
    if sched != [] {
      ReachableInv(net, init, sched[..|sched| - 1]);
      var before := Exec(net, Start(net, init), sched[..|sched| - 1]);
      var p := sched[|sched| - 1];
      if CanMove(net, before, p, false) {
        MoveKeepsInv(net, init, before, p);
      }
    }
  }

  // ---------------------------------------------------------------- main results

  lemma {:induction false} SyncSettles<A, S, M>(net: Net<A, S, M>, init: seq<S>, p: nat, a: nat, b: nat)
    requires Consistent(net) && |init| == |net.scripts|
    requires p < |net.scripts| && |net.scripts[p]| <= a <= b
    ensures Sync(net, init, b)[p] == Sync(net, init, a)[p]
    decreases b
  {
    if a < b {
      SyncSettles(net, init, p, a, b - 1);
    }
  }

  lemma {:induction false} HistorySettles<A, S, M>(net: Net<A, S, M>, init: seq<S>, p: nat, q: nat, a: nat, b: nat)
    requires Consistent(net) && |init| == |net.scripts|
    requires p < |net.scripts| && q < |net.scripts|
    requires |net.scripts[p]| <= a || |net.scripts[q]| <= a
    requires a <= b
    ensures History(net, init, p, q, b) == History(net, init, p, q, a)
    decreases b
  {
    if a < b {
      HistorySettles(net, init, p, q, a, b - 1);
      if OutAt(net, p, b - 1).Some? {
        assert SendMatched(net, p, b - 1);
      }
    }
  }

  lemma {:induction false} AllReceived<A, S, M>(net: Net<A, S, M>, init: seq<S>, c: Config<S, M>, p: nat, q: nat)
    requires Consistent(net) && |init| == |net.scripts|
    requires p < |net.scripts| && q < |net.scripts|
    requires WellFormed(net, c) && Conserved(net, init, c, p, q)
    requires c.pc[p] == 3 * |net.scripts[p]| && c.pc[q] == 3 * |net.scripts[q]|
    ensures c.chan[p][q] == []
  {
    var top := MaxLength(net.scripts);
    HistorySettles(net, init, p, q, |net.scripts[p]|, top);
    HistorySettles(net, init, p, q, |net.scripts[q]|, top);
  }

  /**
   Whatever the schedule, a finished run ends with the round-by-round result in every
   process and nothing left in flight.
   */
  lemma {:induction false} EveryRunAgrees<A, S, M>(net: Net<A, S, M>, init: seq<S>, sched: seq<nat>)
    requires Consistent(net) && |init| == |net.scripts|
    ensures var c := Exec(net, Start(net, init), sched);
      Done(net, c) ==>
        && c.local == Trace(net, init)[MaxLength(net.scripts)]
        && forall p, q :: 0 <= p < |net.scripts| && 0 <= q < |net.scripts| ==> c.chan[p][q] == []
  {
    hide Consistent, Sync, OnPlan, Conserved, Trace;
    ReachableInv(net, init, sched);
    var c := Exec(net, Start(net, init), sched);
    if Done(net, c) {
      var top := MaxLength(net.scripts);
      forall p | 0 <= p < |net.scripts|
        ensures c.local[p] == Trace(net, init)[top][p]
      {
        LocalInTheEnd(net, init, c, p);
      }
      forall p, q | 0 <= p < |net.scripts| && 0 <= q < |net.scripts|
        ensures c.chan[p][q] == []
      {
        AllReceived(net, init, c, p, q);
      }
    }
  }

  lemma {:induction false} LocalInTheEnd<A, S, M>(net: Net<A, S, M>, init: seq<S>, c: Config<S, M>, p: nat)
    requires Consistent(net) && |init| == |net.scripts| && p < |net.scripts|
    requires WellFormed(net, c) && OnPlan(net, init, c, p) && c.pc[p] == 3 * |net.scripts[p]|
    ensures c.local[p] == Trace(net, init)[MaxLength(net.scripts)][p]
  {
    hide Consistent, Sync;
    SyncSettles(net, init, p, |net.scripts[p]|, MaxLength(net.scripts));
  }

  /** Any process's local state depends only on how far it has come, never on the schedule. */
  lemma {:induction false} LocalStateIsRoundState<A, S, M>(net: Net<A, S, M>, init: seq<S>, sched: seq<nat>, p: nat)
    requires Consistent(net) && |init| == |net.scripts| && p < |net.scripts|
    ensures var c := Exec(net, Start(net, init), sched);
      c.local[p] == Sync(net, init, ReceivedRounds(net.sendFirst, c.pc[p]))[p]
  {
    ReachableInv(net, init, sched);
    assert OnPlan(net, init, Exec(net, Start(net, init), sched), p);
  }

  /** The unfinished process with the lowest (round, height), preferring smaller indices. */
  lemma {:induction false} PickLowest(keys: seq<nat>, open: set<nat>) returns (p: nat)
    requires open != {} && forall q :: q in open ==> q < |keys|
    ensures p in open && forall q :: q in open ==> keys[p] <= keys[q]
    decreases |open|
  {
    p :| p in open;
    if open != {p} {
      var rest := open - {p};
      var q := PickLowest(keys, rest);
      assert forall x :: x in open ==> x == p || x in rest;
      if keys[q] < keys[p] {
        p := q;
      }
    }
  }

  /** No open process is behind `p`; those in the same round have started their sends. */
  ghost predicate Lowest<A, S, M>(net: Net<A, S, M>, height: seq<nat>, c: Config<S, M>, p: nat, q: nat)
    requires WellFormed(net, c) && |height| == |net.scripts|
    requires p < |net.scripts| && q < |net.scripts|
  {
    c.pc[q] == 3 * |net.scripts[q]| ||
    c.pc[p] / 3 < c.pc[q] / 3 ||
    (c.pc[p] / 3 == c.pc[q] / 3 && c.pc[q] % 3 != 0 &&
     if net.sendFirst then height[p] <= height[q] else c.pc[p] % 3 <= c.pc[q] % 3)
  }

  lemma {:induction false} LowestCanReceive<A, S, M>(net: Net<A, S, M>, init: seq<S>, height: seq<nat>,
                                                     c: Config<S, M>, p: nat, q: nat)
    requires Consistent(net) && |init| == |net.scripts| && |height| == |net.scripts|
    requires Inv(net, init, c) && p < |net.scripts| && q < |net.scripts|
    requires c.pc[p] < 3 * |net.scripts[p]| && ActionAt(net.sendFirst, c.pc[p]) == Receive
    requires InAt(net, p, c.pc[p] / 3).Some? && InAt(net, p, c.pc[p] / 3).value.peer == q
    requires Lowest(net, height, c, p, q)
    requires Accepts(net, init, p, c.pc[p] / 3)
    ensures CanMove(net, c, p, true)
  {
    HeadIsPaired(net, init, c, p, q);
    assert c.pc[p] / 3 < |net.scripts[q]|;
    assert SentRounds(c.pc[q]) > c.pc[p] / 3;
  }

  lemma {:induction false} LowestCanAwait<A, S, M>(net: Net<A, S, M>, init: seq<S>, height: seq<nat>,
                                                   c: Config<S, M>, p: nat, q: nat)
    requires Consistent(net) && |init| == |net.scripts| && |height| == |net.scripts|
    requires WellFormed(net, c) && p < |net.scripts| && q < |net.scripts|
    requires Conserved(net, init, c, p, q)
    requires c.pc[p] < 3 * |net.scripts[p]| && ActionAt(net.sendFirst, c.pc[p]) == AwaitSend
    requires OutAt(net, p, c.pc[p] / 3).Some? && OutAt(net, p, c.pc[p] / 3).value.peer == q
    requires Lowest(net, height, c, p, q)
    requires net.sendFirst ==> height[q] < height[p]
    ensures CanMove(net, c, p, true)
  {
    var r := c.pc[p] / 3;
    assert SendMatched(net, p, r);
    assert r < |net.scripts[q]|;
    var got := ReceivedRounds(net.sendFirst, c.pc[q]);
    assert got >= r + 1 && SentRounds(c.pc[p]) == r + 1;
    HistoryMonotone(net, init, p, q, r + 1, got);
    assert |c.chan[p][q]| == 0;
  }

  lemma {:induction false} LowestCanMove<A, S, M>(net: Net<A, S, M>, init: seq<S>, height: seq<nat>, c: Config<S, M>,
                                                  p: nat)
    requires Consistent(net) && |init| == |net.scripts| && |height| == |net.scripts|
    requires Accepting(net, init) && Downhill(net, height) && Inv(net, init, c)
    requires p < |net.scripts| && c.pc[p] < 3 * |net.scripts[p]|
    requires forall q :: 0 <= q < |net.scripts| ==> Lowest(net, height, c, p, q)
    ensures CanMove(net, c, p, true)
  {
    var r := c.pc[p] / 3;
    match ActionAt(net.sendFirst, c.pc[p])
    case Send =>
    case Receive =>
      if InAt(net, p, r).Some? {
        assert ReceiveMatched(net, p, r) && Accepts(net, init, p, r);
        LowestCanReceive(net, init, height, c, p, InAt(net, p, r).value.peer);
      }
    case AwaitSend =>
      if OutAt(net, p, r).Some? {
        var q := OutAt(net, p, r).value.peer;
        assert SendMatched(net, p, r) && Conserved(net, init, c, p, q);
        LowestCanAwait(net, init, height, c, p, q);
      }
  }

  lemma {:induction false} SendersMove<A, S, M>(net: Net<A, S, M>, c: Config<S, M>, p: nat)
    requires Consistent(net) && WellFormed(net, c) && p < |net.scripts| && c.pc[p] < 3 * |net.scripts[p]|
    requires c.pc[p] % 3 == 0
    ensures CanMove(net, c, p, true)
  {
  }

  /** No run of any schedule gets stuck, even when every send waits for its receive. */
  lemma {:induction false} NeverStuck<A, S, M>(net: Net<A, S, M>, init: seq<S>, height: seq<nat>,
                                               sched: seq<nat>) returns (p: nat)
    requires Consistent(net) && |init| == |net.scripts| && |height| == |net.scripts|
    requires Accepting(net, init) && Downhill(net, height)
    requires !Done(net, Exec(net, Start(net, init), sched))
    ensures CanMove(net, Exec(net, Start(net, init), sched), p, true)
  {
    hide Consistent, Accepting, Downhill, OnPlan, Conserved, Exec, CanMove;
    ReachableInv(net, init, sched);
    var c := Exec(net, Start(net, init), sched);
    var n := |net.scripts|;
    var open := set q: nat | q < n && c.pc[q] < 3 * |net.scripts[q]|;
    var x :| 0 <= x < n && c.pc[x] != 3 * |net.scripts[x]|;
    assert x in open;
    var rounds := seq(n, q requires 0 <= q < n => c.pc[q] / 3);
    p := PickLowest(rounds, open);
    var level := set q | q in open && rounds[q] == rounds[p];
    if q :| q in level && c.pc[q] % 3 == 0 {
      p := q;
      SendersMove(net, c, p);
    } else {
      assert p in level;
      var keys := if net.sendFirst then height else seq(n, q requires 0 <= q < n => c.pc[q] % 3);
      p := PickLowest(keys, level);
      forall q | 0 <= q < n
        ensures Lowest(net, height, c, p, q)
      {
        if c.pc[q] < 3 * |net.scripts[q]| {
          assert q in open;
          assert rounds[p] <= rounds[q];
          if rounds[q] == rounds[p] {
            assert q in level;
          }
        }
      }
      LowestCanMove(net, init, height, c, p);
    }
  }

  /** Actions still to be taken by processes `p` and up. */
  ghost function Remaining<A, S, M>(net: Net<A, S, M>, c: Config<S, M>, p: nat): nat
    requires WellFormed(net, c) && p <= |net.scripts|
    decreases |net.scripts| - p
  {
    if p == |net.scripts| then 0 else 3 * |net.scripts[p]| - c.pc[p] + Remaining(net, c, p + 1)
  }

  lemma {:induction false} MoveShrinks<A, S, M>(net: Net<A, S, M>, c: Config<S, M>, p: nat, a: nat)
    requires WellFormed(net, c) && Consistent(net) && CanMove(net, c, p, false) && a <= |net.scripts|
    ensures Remaining(net, Move(net, c, p), a) == Remaining(net, c, a) - (if a <= p then 1 else 0)
    decreases |net.scripts| - a
  {
    if a < |net.scripts| {
      MoveShrinks(net, c, p, a + 1);
    }
  }

  /** From every reachable state the run can be completed. */
  lemma {:induction false} CanFinish<A, S, M>(net: Net<A, S, M>, init: seq<S>, height: seq<nat>, sched: seq<nat>)
    returns (more: seq<nat>)
    requires Consistent(net) && |init| == |net.scripts| && |height| == |net.scripts|
    requires Accepting(net, init) && Downhill(net, height)
    ensures sched <= more
    ensures Done(net, Exec(net, Start(net, init), more))
    decreases Remaining(net, Exec(net, Start(net, init), sched), 0)
  {
    var c := Exec(net, Start(net, init), sched);
    if Done(net, c) {
      more := sched;
    } else {
      var p := NeverStuck(net, init, height, sched);
      assert CanMove(net, c, p, false);
      MoveShrinks(net, c, p, 0);
      assert (sched + [p])[..|sched|] == sched;
      more := CanFinish(net, init, height, sched + [p]);
    }
  }

  // ---------------------------------------------------------------- pairing depends on the partners only

  ghost predicate SamePeer<A, B>(a: Option<Half<A>>, b: Option<Half<B>>) {
    a.Some? == b.Some? && (a.Some? ==> a.value.peer == b.value.peer)
  }

  /** Scripts with the same partners pair up alike, whatever the messages are. */
  lemma {:induction false} SamePeersPair<A, S, M, B, U, N>(net: Net<A, S, M>, other: Net<B, U, N>)
    requires Consistent(net) && |net.scripts| == |other.scripts|
    requires forall p, r: nat {:trigger OutAt(other, p, r)} :: 0 <= p < |net.scripts| ==>
      SamePeer(OutAt(net, p, r), OutAt(other, p, r))
    requires forall p, r: nat {:trigger InAt(other, p, r)} :: 0 <= p < |net.scripts| ==>
      SamePeer(InAt(net, p, r), InAt(other, p, r))
    ensures Consistent(other)
  {
    hide RoundAt;
    forall p, r: nat | 0 <= p < |other.scripts| && OutAt(other, p, r).Some?
      ensures SendMatched(other, p, r)
    {
      assert SendMatched(net, p, r);
    }
    forall p, r: nat | 0 <= p < |other.scripts| && InAt(other, p, r).Some?
      ensures ReceiveMatched(other, p, r)
    {
      assert ReceiveMatched(net, p, r);
    }
  }
}
