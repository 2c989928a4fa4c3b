/**
 What a process really posts: the rounds of its script in which it does something.  The
 scripts of a network are padded with idle rounds, so that a message is sent and received in
 rounds of the same number; here the processes run without the padding, and every such run
 is the projection of a run with it.
 */
module Posted {
  import opened Network
  import opened Buffers

  // ---------------------------------------------------------------- the machine without idle rounds

  ghost predicate Addressed<A>(ops: seq<seq<Round<A>>>) {
    forall p, k {:trigger ops[p][k]} :: 0 <= p < |ops| && 0 <= k < |ops[p]| ==>
      && (ops[p][k].out.Some? ==> ops[p][k].out.value.peer < |ops|)
      && (ops[p][k].inc.Some? ==> ops[p][k].inc.value.peer < |ops|)
  }

  /** Process p runs `ops[p]`, one round after the other, with the messages and states of `net`. */
  ghost predicate CanAct<A, S, M>(net: Net<A, S, M>, ops: seq<seq<Round<A>>>, c: Config<S, M>, p: nat, rendezvous: bool)
    requires Addressed(ops) && WellFormed(net.(scripts := ops), c)
  {
    p < |ops| && c.pc[p] < 3 * |ops[p]| &&
    var round := ops[p][c.pc[p] / 3];
    match ActionAt(net.sendFirst, c.pc[p])
    case Send => true
    case Receive =>
      round.inc.None? ||
      (c.chan[round.inc.value.peer][p] != [] && net.fits(round.inc.value.how, c.chan[round.inc.value.peer][p][0]))
    case AwaitSend => round.out.None? || (rendezvous ==> c.chan[p][round.out.value.peer] == [])
  }

  ghost function Act<A, S, M>(net: Net<A, S, M>, ops: seq<seq<Round<A>>>, c: Config<S, M>, p: nat): (c': Config<S, M>)
    requires Addressed(ops) && WellFormed(net.(scripts := ops), c) && CanAct(net, ops, c, p, false)
    ensures WellFormed(net.(scripts := ops), c')
  {
    var round, next := ops[p][c.pc[p] / 3], c.(pc := c.pc[p := c.pc[p] + 1]);
    match ActionAt(net.sendFirst, c.pc[p])
    case Send =>
      if round.out.None? then next
      else next.(chan := Push(c.chan, p, round.out.value.peer, net.pack(round.out.value.how, c.local[p])))
    case Receive =>
      if round.inc.None? then next
      else
        var q := round.inc.value.peer;
        next.(local := c.local[p := net.unpack(round.inc.value.how, c.local[p], c.chan[q][p][0])],
              chan := Pop(c.chan, q, p))
    case AwaitSend => next
  }

  ghost function Perform<A, S, M>(net: Net<A, S, M>, ops: seq<seq<Round<A>>>, c: Config<S, M>,
                                  sched: seq<nat>): (c': Config<S, M>)
    requires Addressed(ops) && WellFormed(net.(scripts := ops), c)
    ensures WellFormed(net.(scripts := ops), c')
    decreases |sched|
  {
    if sched == [] then c
    else
      var before := Perform(net, ops, c, sched[..|sched| - 1]);
      var p := sched[|sched| - 1];
      if CanAct(net, ops, before, p, false) then Act(net, ops, before, p) else before
  }

  ghost predicate AllPerformed<A, S, M>(ops: seq<seq<Round<A>>>, c: Config<S, M>)
    requires |c.pc| == |ops|
  {
    forall p :: 0 <= p < |ops| ==> c.pc[p] == 3 * |ops[p]|
  }

  // ---------------------------------------------------------------- where a process is

  predicate IsIdle<A>(round: Round<A>) { round.out.None? && round.inc.None? }

  /** The number of rounds before round r in which something is done. */
  ghost function Rank<A>(script: seq<Round<A>>, r: nat): nat
    requires r <= |script|
  {
    |Active(script[..r])|
  }

  lemma {:induction false} RankStep<A>(script: seq<Round<A>>, r: nat)
    requires r < |script|
    ensures Rank(script, 0) == 0 && Rank(script, |script|) == |Active(script)|
    ensures Rank(script, r + 1) == if IsIdle(script[r]) then Rank(script, r) else Rank(script, r) + 1
    ensures Active(script[..r]) <= Active(script[..r + 1])
    ensures !IsIdle(script[r]) ==> Active(script[..r + 1])[Rank(script, r)] == script[r]
  {
    assert script[..r + 1][..r] == script[..r];
    assert script[..|script|] == script;
  }

  lemma {:induction false} ActivePrefix<A>(script: seq<Round<A>>, r: nat)
    requires r <= |script|
    ensures Active(script[..r]) <= Active(script)
    decreases |script| - r
  {
    if r == |script| {
      assert script[..r] == script;
    } else {
      ActivePrefix(script, r + 1);
      RankStep(script, r);
    }
  }

  /** The place of a round among those in which something is done. */
  lemma {:induction false} RankOf<A>(script: seq<Round<A>>, r: nat)
    requires r < |script| && !IsIdle(script[r])
    ensures Rank(script, r) < |Active(script)| && Active(script)[Rank(script, r)] == script[r]
  {
    RankStep(script, r);
    ActivePrefix(script, r + 1);
  }

  /** Position `pc` in the script, with the idle rounds ahead skipped, is position `at` without them. */
  ghost predicate Matches<A>(script: seq<Round<A>>, pc: nat, at: nat) {
    pc <= 3 * |script| && at == 3 * Rank(script, pc / 3) + pc % 3 &&
    (pc < 3 * |script| ==> !IsIdle(script[pc / 3]))
  }

  ghost predicate Corresponds<A, S, M>(net: Net<A, S, M>, c: Config<S, M>, d: Config<S, M>)
    requires WellFormed(net, c)
  {
    && c.local == d.local && c.chan == d.chan && |d.pc| == |c.pc|
    && forall p {:trigger c.pc[p]} :: 0 <= p < |c.pc| ==> Matches(net.scripts[p], c.pc[p], d.pc[p])
  }

  lemma {:induction false} MatchesEnds<A>(script: seq<Round<A>>, pc: nat, at: nat)
    requires Matches(script, pc, at)
    ensures at <= 3 * |Active(script)|
    ensures pc == 3 * |script| <==> at == 3 * |Active(script)|
    ensures pc < 3 * |script| ==>
      at / 3 < |Active(script)| && Active(script)[at / 3] == script[pc / 3] && at % 3 == pc % 3
  {
    if pc < 3 * |script| {
      RankOf(script, pc / 3);
    } else {
      assert script[..|script|] == script;
    }
  }

  // ---------------------------------------------------------------- skipping idle rounds

  lemma {:induction false} OneMore<A, S, M>(net: Net<A, S, M>, init: seq<S>, sched: seq<nat>, p: nat)
    requires Consistent(net) && |init| == |net.scripts|
    ensures var c := Exec(net, Start(net, init), sched);
      Exec(net, Start(net, init), sched + [p]) == if CanMove(net, c, p, false) then Move(net, c, p) else c
  {
    assert (sched + [p])[..|sched|] == sched;
  }

  lemma {:induction false} IdleMove<A, S, M>(net: Net<A, S, M>, c: Config<S, M>, p: nat)
    requires Consistent(net) && WellFormed(net, c) && p < |net.scripts| && c.pc[p] < 3 * |net.scripts[p]|
    requires IsIdle(net.scripts[p][c.pc[p] / 3])
    ensures CanMove(net, c, p, false) && Move(net, c, p) == c.(pc := c.pc[p := c.pc[p] + 1])
  {
  }

  /** One idle round is three moves that change nothing else. */
  lemma {:induction false} PassIdle<A, S, M>(net: Net<A, S, M>, init: seq<S>, sched: seq<nat>, p: nat)
    requires Consistent(net) && |init| == |net.scripts| && p < |net.scripts|
    requires var c := Exec(net, Start(net, init), sched);
      c.pc[p] < 3 * |net.scripts[p]| && c.pc[p] % 3 == 0 && IsIdle(net.scripts[p][c.pc[p] / 3])
    ensures var c := Exec(net, Start(net, init), sched);
      Exec(net, Start(net, init), sched + [p] + [p] + [p]) == c.(pc := c.pc[p := c.pc[p] + 3])
  {
    hide CanMove, Move, Exec, IsIdle, RoundAt;
    var c := Exec(net, Start(net, init), sched);
    IdleMove(net, c, p);
    OneMore(net, init, sched, p);
    var c1 := Exec(net, Start(net, init), sched + [p]);
    IdleMove(net, c1, p);
    OneMore(net, init, sched + [p], p);
    var c2 := Exec(net, Start(net, init), sched + [p] + [p]);
    IdleMove(net, c2, p);
    OneMore(net, init, sched + [p] + [p], p);
  }

  lemma {:induction false} Skip<A, S, M>(net: Net<A, S, M>, init: seq<S>, sched: seq<nat>, p: nat)
    returns (more: seq<nat>)
    requires Consistent(net) && |init| == |net.scripts| && p < |net.scripts|
    requires Exec(net, Start(net, init), sched).pc[p] % 3 == 0
    ensures var c, c' := Exec(net, Start(net, init), sched), Exec(net, Start(net, init), more);
      && c' == c.(pc := c.pc[p := c'.pc[p]])
      && Matches(net.scripts[p], c'.pc[p], 3 * Rank(net.scripts[p], c.pc[p] / 3))
    decreases 3 * |net.scripts[p]| - Exec(net, Start(net, init), sched).pc[p]
  {
    hide CanMove, Move, Exec, IsIdle, Rank, RoundAt;
    var c, script := Exec(net, Start(net, init), sched), net.scripts[p];
    if c.pc[p] < 3 * |script| && IsIdle(script[c.pc[p] / 3]) {
      PassIdle(net, init, sched, p);
      RankStep(script, c.pc[p] / 3);
      more := Skip(net, init, sched + [p] + [p] + [p], p);
    } else {
      more := sched;
      assert c.pc[p := c.pc[p]] == c.pc;
    }
  }

  /** Before anything is posted, all skip the idle rounds ahead of them. */
  lemma {:induction false} SkipAll<A, S, M>(net: Net<A, S, M>, init: seq<S>, k: nat) returns (more: seq<nat>)
    requires Consistent(net) && |init| == |net.scripts| && k <= |net.scripts|
    ensures var c, c' := Start(net, init), Exec(net, Start(net, init), more);
      && c'.local == c.local && c'.chan == c.chan
      && (forall p :: 0 <= p < k ==> Matches(net.scripts[p], c'.pc[p], 0))
      && (forall p :: k <= p < |net.scripts| ==> c'.pc[p] == 0)
    decreases k
  {
    hide CanMove, Move, IsIdle, RoundAt, Matches;
    if k == 0 {
      more := [];
    } else {
      var before := SkipAll(net, init, k - 1);
      NoRank(net.scripts[k - 1]);
      more := Skip(net, init, before, k - 1);
    }
  }

  lemma {:induction false} NoRank<A>(script: seq<Round<A>>)
    ensures Rank(script, 0) == 0
  {
    assert script[..0] == [];
  }

  // ---------------------------------------------------------------- projection

  ghost function PostedBy<A>(scripts: seq<seq<Round<A>>>): (ops: seq<seq<Round<A>>>)
    ensures |ops| == |scripts| && forall p :: 0 <= p < |scripts| ==> ops[p] == Active(scripts[p])
  {
    seq(|scripts|, p requires 0 <= p < |scripts| => Active(scripts[p]))
  }

  lemma {:induction false} ActiveFrom<A>(script: seq<Round<A>>, k: nat) returns (r: nat)
    requires k < |Active(script)|
    ensures r < |script| && script[r] == Active(script)[k]
    decreases |script|
  {
    var front := script[..|script| - 1];
    if k < |Active(front)| {
      r := ActiveFrom(front, k);
    } else {
      r := |script| - 1;
    }
  }

  lemma {:induction false} OpsAddressed<A, S, M>(net: Net<A, S, M>)
    requires Consistent(net)
    ensures Addressed(PostedBy(net.scripts))
  {
    hide Active;
    var ops: seq<seq<Round<A>>> := PostedBy(net.scripts);
    forall p, k | 0 <= p < |ops| && 0 <= k < |ops[p]|
      ensures ops[p][k].out.Some? ==> ops[p][k].out.value.peer < |ops|
      ensures ops[p][k].inc.Some? ==> ops[p][k].inc.value.peer < |ops|
    {
      var r := ActiveFrom(net.scripts[p], k);
      assert OutAt(net, p, r) == ops[p][k].out && InAt(net, p, r) == ops[p][k].inc;
      assert ops[p][k].out.Some? ==> SendMatched(net, p, r);
      assert ops[p][k].inc.Some? ==> ReceiveMatched(net, p, r);
    }
  }

  /** A process can go on in one machine exactly if it can in the other, to the same effect. */
  lemma {:induction false} SameStep<A, S, M>(net: Net<A, S, M>, ops: seq<seq<Round<A>>>, c: Config<S, M>,
                                             d: Config<S, M>, p: nat)
    requires Consistent(net) && WellFormed(net, c) && ops == PostedBy(net.scripts) && Addressed(ops)
    requires WellFormed(net.(scripts := ops), d) && Corresponds(net, c, d) && p < |ops|
    ensures forall rendezvous :: CanMove(net, c, p, rendezvous) <==> CanAct(net, ops, d, p, rendezvous)
    ensures CanMove(net, c, p, false) ==>
      var c', d' := Move(net, c, p), Act(net, ops, d, p);
      && c'.local == d'.local && c'.chan == d'.chan
      && c'.pc == c.pc[p := c.pc[p] + 1] && d'.pc == d.pc[p := d.pc[p] + 1]
  {
    hide Active, Rank, Consistent, Push, Pop, Addressed;
    assert Matches(net.scripts[p], c.pc[p], d.pc[p]);
    MatchesEnds(net.scripts[p], c.pc[p], d.pc[p]);
    if c.pc[p] < 3 * |net.scripts[p]| {
      Partners(net, p, c.pc[p] / 3);
    }
  }

  lemma {:induction false} Partners<A, S, M>(net: Net<A, S, M>, p: nat, r: nat)
    requires Consistent(net) && p < |net.scripts|
    ensures OutAt(net, p, r).Some? ==> OutAt(net, p, r).value.peer < |net.scripts|
    ensures InAt(net, p, r).Some? ==> InAt(net, p, r).value.peer < |net.scripts|
  {
    assert OutAt(net, p, r).Some? ==> SendMatched(net, p, r);
    assert InAt(net, p, r).Some? ==> ReceiveMatched(net, p, r);
  }

  /** Where the moved process is afterwards, once it has skipped the idle rounds ahead. */
  lemma {:induction false} NextMatches<A>(script: seq<Round<A>>, pc: nat, at: nat)
    requires Matches(script, pc, at) && pc < 3 * |script|
    ensures pc % 3 < 2 ==> Matches(script, pc + 1, at + 1)
    ensures pc % 3 == 2 ==> (pc + 1) % 3 == 0 && at + 1 == 3 * Rank(script, (pc + 1) / 3)
  {
    hide Rank;
    if pc % 3 < 2 {
      assert (pc + 1) / 3 == pc / 3 && (pc + 1) % 3 == pc % 3 + 1;
    } else {
      assert (pc + 1) / 3 == pc / 3 + 1 && (pc + 1) % 3 == 0;
      RankStep(script, pc / 3);
    }
  }

  /** Every run of the posted operations is the projection of a run of the scripts. */
  lemma {:induction false} Project<A, S, M>(net: Net<A, S, M>, init: seq<S>, posted: seq<nat>) returns (sched: seq<nat>)
    requires Consistent(net) && |init| == |net.scripts| && Addressed(PostedBy(net.scripts))
    ensures Corresponds(net, Exec(net, Start(net, init), sched),
                        Perform(net, PostedBy(net.scripts), Start(net, init), posted))
    decreases |posted|
  {
    hide CanMove, Move, CanAct, Act, Matches, Consistent, Exec, Addressed;
    var ops, n := PostedBy(net.scripts), |net.scripts|;
    if posted == [] {
      sched := SkipAll(net, init, n);
    } else {
      var p := posted[|posted| - 1];
      var before := Project(net, init, posted[..|posted| - 1]);
      var c := Exec(net, Start(net, init), before);
      var d := Perform(net, ops, Start(net, init), posted[..|posted| - 1]);
      if p < n && CanAct(net, ops, d, p, false) {
        SameStep(net, ops, c, d, p);
        sched := FollowStep(net, init, before, d, p);
      } else {
        NobodyThere(net, ops, d, p);
        sched := before;
      }
    }
  }

  lemma {:induction false} NobodyThere<A, S, M>(net: Net<A, S, M>, ops: seq<seq<Round<A>>>, d: Config<S, M>, p: nat)
    requires Addressed(ops) && WellFormed(net.(scripts := ops), d)
    ensures p >= |ops| ==> !CanAct(net, ops, d, p, false)
  {
  }

  lemma {:induction false} FollowStep<A, S, M>(net: Net<A, S, M>, init: seq<S>, before: seq<nat>, d: Config<S, M>,
                                               p: nat)
    returns (sched: seq<nat>)
    requires Consistent(net) && |init| == |net.scripts| && Addressed(PostedBy(net.scripts))
    requires WellFormed(net.(scripts := PostedBy(net.scripts)), d) && p < |net.scripts|
    requires Corresponds(net, Exec(net, Start(net, init), before), d) && CanAct(net, PostedBy(net.scripts), d, p, false)
    ensures Corresponds(net, Exec(net, Start(net, init), sched), Act(net, PostedBy(net.scripts), d, p))
  {
    hide CanMove, Move, CanAct, Act, Matches, Consistent, Exec, Addressed;
    var ops, c := PostedBy(net.scripts), Exec(net, Start(net, init), before);
    SameStep(net, ops, c, d, p);
    OneMore(net, init, before, p);
    var c' := Exec(net, Start(net, init), before + [p]);
    assert Matches(net.scripts[p], c.pc[p], d.pc[p]);
    NotAtEnd(net, c, p);
    NextMatches(net.scripts[p], c.pc[p], d.pc[p]);
    if c.pc[p] % 3 == 2 {
      sched := Skip(net, init, before + [p], p);
    } else {
      sched := before + [p];
    }
  }

  lemma {:induction false} NotAtEnd<A, S, M>(net: Net<A, S, M>, c: Config<S, M>, p: nat)
    requires WellFormed(net, c) && Consistent(net) && CanMove(net, c, p, false)
    ensures c.pc[p] < 3 * |net.scripts[p]|
  {
  }

  /** Whatever the schedule, when all posted operations are performed every process holds the round-by-round result. */
  lemma {:induction false} PostedRunsEnd<A, S, M>(net: Net<A, S, M>, init: seq<S>, posted: seq<nat>)
    requires Consistent(net) && |init| == |net.scripts|
    ensures Addressed(PostedBy(net.scripts))
    ensures var d := Perform(net, PostedBy(net.scripts), Start(net, init), posted);
      AllPerformed(PostedBy(net.scripts), d) ==> d.local == Trace(net, init)[MaxLength(net.scripts)]
  {
    hide CanMove, CanAct, Consistent, Exec, Addressed, Trace, Perform, Active;
    OpsAddressed(net);
    var sched := Project(net, init, posted);
    SameEnd(net, Exec(net, Start(net, init), sched), Perform(net, PostedBy(net.scripts), Start(net, init), posted));
    EveryRunAgrees(net, init, sched);
  }

  /** A process that has performed all it posts has its result, whatever the others have yet to do. */
  lemma {:induction false} OneProcessEnds<A, S, M>(net: Net<A, S, M>, init: seq<S>, posted: seq<nat>, p: nat)
    requires Consistent(net) && |init| == |net.scripts| && p < |net.scripts|
    ensures Addressed(PostedBy(net.scripts))
    ensures var d := Perform(net, PostedBy(net.scripts), Start(net, init), posted);
      d.pc[p] == 3 * |PostedBy(net.scripts)[p]| ==> d.local[p] == Trace(net, init)[MaxLength(net.scripts)][p]
  {
    hide CanMove, CanAct, Consistent, Exec, Addressed, Trace, Perform, Active, Matches;
    OpsAddressed(net);
    var sched := Project(net, init, posted);
    var c := Exec(net, Start(net, init), sched);
    var d := Perform(net, PostedBy(net.scripts), Start(net, init), posted);
    assert Matches(net.scripts[p], c.pc[p], d.pc[p]);
    MatchesEnds(net.scripts[p], c.pc[p], d.pc[p]);
    LocalStateIsRoundState(net, init, sched, p);
    if c.pc[p] == 3 * |net.scripts[p]| {
      LocalInTheEnd(net, init, c, p);
    }
  }

  /** Until then some process can go on, even with synchronous sends. */
  lemma {:induction false} PostedRunsAgree<A, S, M>(net: Net<A, S, M>, init: seq<S>, height: seq<nat>, posted: seq<nat>)
    requires Consistent(net) && |init| == |height| == |net.scripts| && Accepting(net, init) && Downhill(net, height)
    ensures Addressed(PostedBy(net.scripts))
    ensures var d := Perform(net, PostedBy(net.scripts), Start(net, init), posted);
      if AllPerformed(PostedBy(net.scripts), d) then d.local == Trace(net, init)[MaxLength(net.scripts)]
      else exists p :: CanAct(net, PostedBy(net.scripts), d, p, true)
  {
    hide CanMove, CanAct, Consistent, Exec, Addressed, Trace, Accepting, Downhill, Perform, Active;
    PostedRunsEnd(net, init, posted);
    var ops := PostedBy(net.scripts);
    var d := Perform(net, ops, Start(net, init), posted);
    if !AllPerformed(ops, d) {
      var sched := Project(net, init, posted);
      var c := Exec(net, Start(net, init), sched);
      SameEnd(net, c, d);
      var p := NeverStuck(net, init, height, sched);
      MoversExist(net, c, p);
      SameStep(net, ops, c, d, p);
    }
  }

  lemma {:induction false} MoversExist<A, S, M>(net: Net<A, S, M>, c: Config<S, M>, p: nat)
    requires WellFormed(net, c) && Consistent(net) && CanMove(net, c, p, true)
    ensures p < |net.scripts|
  {
  }

  lemma {:induction false} SameEnd<A, S, M>(net: Net<A, S, M>, c: Config<S, M>, d: Config<S, M>)
    requires WellFormed(net, c) && Corresponds(net, c, d)
    ensures Done(net, c) <==> AllPerformed(PostedBy(net.scripts), d)
  {
    hide Active, Matches;
    forall p | 0 <= p < |net.scripts|
      ensures c.pc[p] == 3 * |net.scripts[p]| <==> d.pc[p] == 3 * |Active(net.scripts[p])|
    {
      assert Matches(net.scripts[p], c.pc[p], d.pc[p]);
      MatchesEnds(net.scripts[p], c.pc[p], d.pc[p]);
    }
  }

  // ---------------------------------------------------------------- every run can be completed

  /** The actions that are left. */
  ghost function Left<A>(ops: seq<seq<Round<A>>>, pc: seq<nat>): nat
    requires |ops| == |pc| && forall p :: 0 <= p < |ops| ==> pc[p] <= 3 * |ops[p]|
  {
    if ops == [] then 0
    else
      var k := |ops| - 1;
      Left(ops[..k], pc[..k]) + (3 * |ops[k]| - pc[k])
  }

  lemma {:induction false} LeftDrops<A>(ops: seq<seq<Round<A>>>, pc: seq<nat>, p: nat)
    requires |ops| == |pc| && forall q :: 0 <= q < |ops| ==> pc[q] <= 3 * |ops[q]|
    requires p < |ops| && pc[p] < 3 * |ops[p]|
    ensures Left(ops, pc[p := pc[p] + 1]) == Left(ops, pc) - 1
    decreases |ops|
  {
    var k := |ops| - 1;
    if p < k {
      LeftDrops(ops[..k], pc[..k], p);
      assert pc[p := pc[p] + 1][..k] == pc[..k][p := pc[..k][p] + 1];
    } else {
      assert pc[p := pc[p] + 1][..k] == pc[..k];
    }
  }

  /** No schedule leads to a state in which operations are left but nobody can go on. */
  ghost predicate NeverHeldUp<A, S, M>(net: Net<A, S, M>, ops: seq<seq<Round<A>>>, init: seq<S>)
    requires Addressed(ops) && |init| == |ops| == |net.scripts|
  {
    forall posted: seq<nat> {:trigger Perform(net, ops, Start(net, init), posted)} ::
      var d := Perform(net, ops, Start(net, init), posted);
      AllPerformed(ops, d) || exists p :: CanAct(net, ops, d, p, true)
  }

  lemma {:induction false} OneActMore<A, S, M>(net: Net<A, S, M>, ops: seq<seq<Round<A>>>, init: seq<S>,
                                               posted: seq<nat>, p: nat)
    requires Addressed(ops) && |init| == |ops| == |net.scripts|
    requires CanAct(net, ops, Perform(net, ops, Start(net, init), posted), p, true)
    ensures var d, d' := Perform(net, ops, Start(net, init), posted), Perform(net, ops, Start(net, init), posted + [p]);
      p < |ops| && d.pc[p] < 3 * |ops[p]| && d'.pc == d.pc[p := d.pc[p] + 1]
  {
    hide Addressed;
    assert (posted + [p])[..|posted|] == posted;
    var d := Perform(net, ops, Start(net, init), posted);
    assert CanAct(net, ops, d, p, false);
  }

  /** If nothing is ever held up, every run can be completed. */
  lemma {:induction false} Finish<A, S, M>(net: Net<A, S, M>, ops: seq<seq<Round<A>>>, init: seq<S>, posted: seq<nat>)
    returns (more: seq<nat>)
    requires Addressed(ops) && |init| == |ops| == |net.scripts| && NeverHeldUp(net, ops, init)
    ensures posted <= more && AllPerformed(ops, Perform(net, ops, Start(net, init), more))
    decreases Left(ops, Perform(net, ops, Start(net, init), posted).pc)
  {
    hide Addressed, CanAct, Perform, Left;
    var d := Perform(net, ops, Start(net, init), posted);
    if AllPerformed(ops, d) {
      more := posted;
    } else {
      var p :| CanAct(net, ops, d, p, true);
      OneActMore(net, ops, init, posted, p);
      LeftDrops(ops, d.pc, p);
      more := Finish(net, ops, init, posted + [p]);
    }
  }
}
