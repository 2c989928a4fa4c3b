/**
 The monotone-counter barrier (`localBarrier`, `SMPSWBarrier`): n processes that keep calling
 it, in every interleaving.  A call raises the process's own release count by n, adds one to
 the shared counter, and spins until the counter has reached the release count.
 */
module CounterBarrier {
  import opened Network

  datatype Phase = Outside | Entered | Spinning

  /** One process: how often it has arrived (added to the counter) and returned. */
  datatype Proc = Proc(phase: Phase, releaseCnt: nat, arrivals: nat, exits: nat)

  datatype State = State(procs: seq<Proc>, counter: nat)

  predicate Enabled(st: State, p: nat) {
    p < |st.procs| && (st.procs[p].phase == Spinning ==> st.counter >= st.procs[p].releaseCnt)
  }

  function Move(st: State, p: nat): (next: State)
    requires Enabled(st, p)
    ensures |next.procs| == |st.procs|
  {
    var me := st.procs[p];
    match me.phase
    case Outside => State(st.procs[p := Proc(Entered, me.releaseCnt + |st.procs|, me.arrivals, me.exits)], st.counter)
    case Entered => State(st.procs[p := Proc(Spinning, me.releaseCnt, me.arrivals + 1, me.exits)], st.counter + 1)
    case Spinning => State(st.procs[p := Proc(Outside, me.releaseCnt, me.arrivals, me.exits + 1)], st.counter)
  }

  function Start(n: nat): (st: State)
    ensures |st.procs| == n
  {
    State(seq(n, i => Proc(Outside, 0, 0, 0)), 0)
  }

  ghost function Exec(st: State, sched: seq<nat>): (st': State)
    ensures |st'.procs| == |st.procs|
  {
    if sched == [] then st
    else
      var before := Exec(st, sched[..|sched| - 1]);
      var p := sched[|sched| - 1];
      if Enabled(before, p) then Move(before, p) else before
  }

  // ---------------------------------------------------------------- adding up arrivals

  function Arrivals(procs: seq<Proc>): nat {
    if procs == [] then 0 else Arrivals(procs[..|procs| - 1]) + procs[|procs| - 1].arrivals
  }

  lemma {:induction false} ArrivalsUpdate(procs: seq<Proc>, p: nat, v: Proc)
    requires p < |procs|
    ensures Arrivals(procs[p := v]) == Arrivals(procs) + v.arrivals - procs[p].arrivals
    decreases |procs|
  {
    var n, u := |procs| - 1, procs[p := v];
    if p == n {
      assert u[..n] == procs[..n];
    } else {
      assert u[..n] == procs[..n][p := v];
      ArrivalsUpdate(procs[..n], p, v);
    }
  }

  /** If nobody has arrived more than k times, n * k arrivals mean that everybody has arrived k times. */
  lemma {:induction false} FullHouse(procs: seq<Proc>, k: nat)
    requires forall q :: 0 <= q < |procs| ==> procs[q].arrivals <= k
    ensures Arrivals(procs) <= |procs| * k
    ensures Arrivals(procs) == |procs| * k ==> forall q :: 0 <= q < |procs| ==> procs[q].arrivals == k
    decreases |procs|
  {
    if procs == [] {
      assert 0 * k == 0;
    } else {
      var front := procs[..|procs| - 1];
      FullHouse(front, k);
      assert |procs| * k == |front| * k + k;
      assert forall q :: 0 <= q < |front| ==> procs[q] == front[q];
    }
  }

  lemma {:induction false} EnoughArrivals(procs: seq<Proc>, k: nat)
    requires forall q :: 0 <= q < |procs| ==> procs[q].arrivals >= k
    ensures Arrivals(procs) >= |procs| * k
    decreases |procs|
  {
    if procs == [] {
      assert 0 * k == 0;
    } else {
      var front := procs[..|procs| - 1];
      EnoughArrivals(front, k);
      assert |procs| * k == |front| * k + k;
    }
  }

  // ---------------------------------------------------------------- the invariant

  ghost predicate ProcInv(me: Proc, n: nat) {
    && me.releaseCnt == n * (if me.phase == Outside then me.exits else me.exits + 1)
    && me.arrivals == if me.phase == Spinning then me.exits + 1 else me.exits
  }

  ghost predicate Inv(st: State) {
    && st.counter == Arrivals(st.procs)
    && (forall p {:trigger st.procs[p]} :: 0 <= p < |st.procs| ==> ProcInv(st.procs[p], |st.procs|))
    && (forall p, q {:trigger st.procs[p], st.procs[q]} :: 0 <= p < |st.procs| && 0 <= q < |st.procs| ==>
          st.procs[q].arrivals >= st.procs[p].exits)
  }

  /** The spin ends exactly when everybody has arrived as often as the spinning process. */
  lemma {:induction false} ReleaseMeans(st: State, p: nat)
    requires Inv(st) && p < |st.procs| && st.procs[p].phase == Spinning
    ensures st.counter >= st.procs[p].releaseCnt <==>
      forall q :: 0 <= q < |st.procs| ==> st.procs[q].arrivals >= st.procs[p].arrivals
  {
    var n, k := |st.procs|, st.procs[p].arrivals;
    assert ProcInv(st.procs[p], n);
    assert st.procs[p].releaseCnt == n * k;
    if forall q :: 0 <= q < n ==> st.procs[q].arrivals >= k {
      EnoughArrivals(st.procs, k);
    } else {
      var late :| 0 <= late < n && st.procs[late].arrivals < k;
      forall q | 0 <= q < n
        ensures st.procs[q].arrivals <= k
      {
        assert st.procs[late].arrivals >= st.procs[q].exits && ProcInv(st.procs[q], n);
      }
      FullHouse(st.procs, k);
    }
  }

  lemma {:induction false} MoveKeepsInv(st: State, p: nat)
    requires Inv(st) && Enabled(st, p)
    ensures Inv(Move(st, p))
  {
    var next, n := Move(st, p), |st.procs|;
    ArrivalsUpdate(st.procs, p, next.procs[p]);
    StaysCounted(st, p);
    if st.procs[p].phase == Spinning {
      ReleaseMeans(st, p);
    }
    forall a, b | 0 <= a < n && 0 <= b < n
      ensures next.procs[b].arrivals >= next.procs[a].exits
    {
      assert ProcInv(st.procs[p], n);
      assert st.procs[b].arrivals >= st.procs[a].exits;
    }
  }

  lemma {:induction false} StaysCounted(st: State, p: nat)
    requires Inv(st) && Enabled(st, p)
    ensures ProcInv(Move(st, p).procs[p], |st.procs|)
  {
    var me, n := st.procs[p], |st.procs|;
    assert ProcInv(me, n);
    OneRoundMore(n, me.exits);
  }

  lemma {:induction false} OneRoundMore(n: nat, k: nat)
    ensures n * (k + 1) == n * k + n
  {
  }

  lemma {:induction false} StartInv(n: nat)
    ensures Inv(Start(n))
  {
    NoArrivals(n, n);
    assert n * 0 == 0;
  }

  lemma {:induction false} NoArrivals(n: nat, k: nat)
    requires k <= n
    ensures Arrivals(Start(n).procs[..k]) == 0 && Start(n).procs[..n] == Start(n).procs
    decreases k
  {
    if k > 0 {
      NoArrivals(n, k - 1);
      assert Start(n).procs[..k][..k - 1] == Start(n).procs[..k - 1];
    }
  }

  lemma {:induction false} ReachableInv(n: nat, sched: seq<nat>)
    ensures Inv(Exec(Start(n), sched))
    decreases |sched|
  {
    hide Inv, Enabled, Move, Start;
    if sched == [] {
      StartInv(n);
    } else {
      ReachableInv(n, sched[..|sched| - 1]);
      var before := Exec(Start(n), sched[..|sched| - 1]);
      if Enabled(before, sched[|sched| - 1]) {
        MoveKeepsInv(before, sched[|sched| - 1]);
      }
    }
  }

  /**
   In every run the counter is the total number of arrivals, no two processes are more than
   one arrival apart, and a process that has returned k times has seen everybody arrive k times.
   */
  lemma {:induction false} BarrierHolds(n: nat, sched: seq<nat>, p: nat, q: nat)
    requires p < n && q < n
    ensures var st := Exec(Start(n), sched);
      && st.counter == Arrivals(st.procs)
      && st.procs[q].arrivals >= st.procs[p].exits
      && st.procs[p].arrivals <= st.procs[q].arrivals + 1
  {
    hide Start, Enabled, Move;
    ReachableInv(n, sched);
    var st := Exec(Start(n), sched);
    assert ProcInv(st.procs[p], n);
  }

  /** Some process can always go on, if all keep calling. */
  lemma {:induction false} NeverStuck(n: nat, sched: seq<nat>) returns (p: nat)
    requires n > 0
    ensures Enabled(Exec(Start(n), sched), p)
  {
    hide Start, Move;
    ReachableInv(n, sched);
    var st := Exec(Start(n), sched);
    var keys := seq(n, q requires 0 <= q < n => st.procs[q].arrivals);
    var open := set q: nat | q < n && keys[q] >= 0;
    assert 0 in open;
    p := PickLowest(keys, open);
    forall q | 0 <= q < n
      ensures st.procs[q].arrivals >= st.procs[p].arrivals
    {
      assert q in open && keys[q] == st.procs[q].arrivals;
    }
    if st.procs[p].phase == Spinning {
      ReleaseMeans(st, p);
    }
  }
}
