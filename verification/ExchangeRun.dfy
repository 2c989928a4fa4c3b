/** All hosts together running `exchangeStripeOfData`. */
module ExchangeRun {
  import opened Bits
  import opened Layout
  import opened Network
  import opened Buffers
  import opened Hypercube
  import opened Exchange

  ghost predicate AreScripts(scripts: seq<seq<Round<Segment>>>, sizes: seq<nat>) {
    |scripts| == |sizes| &&
    forall p {:trigger IsScript(scripts[p], p, sizes, |sizes|)} ::
      0 <= p < |sizes| ==> IsScript(scripts[p], p, sizes, |sizes|)
  }

  /** What p sends in a round is what its partner expects, in the same number of bytes. */
  lemma {:induction false} RoundsPair(p: nat, r: nat, sizes: seq<nat>)
    requires p < |sizes|
    ensures var n, round := |sizes|, ExchangeRound(p, r, sizes, |sizes|);
      && (round.out.Some? ==>
            var q := round.out.value.peer;
            q < n && ExchangeRound(q, r, sizes, n).inc.Some? && ExchangeRound(q, r, sizes, n).inc.value.peer == p)
      && (round.inc.Some? ==>
            var q := round.inc.value.peer;
            && q < n && ExchangeRound(q, r, sizes, n).out.Some?
            && ExchangeRound(q, r, sizes, n).out.value.peer == p
            && ExchangeRound(q, r, sizes, n).out.value.how == Segment(0, round.inc.value.how.len))
  {
    hide HeldBytes;
    PeersPair(p, r, |sizes|);
  }

  lemma {:induction false} RoundOf<T>(net: Net<Segment, seq<T>, seq<T>>, sizes: seq<nat>, p: nat, r: nat)
    requires AreScripts(net.scripts, sizes) && p < |sizes|
    ensures OutAt(net, p, r) == ExchangeRound(p, r, sizes, |sizes|).out
    ensures InAt(net, p, r) == ExchangeRound(p, r, sizes, |sizes|).inc
  {
    hide ExchangeRound;
    assert IsScript(net.scripts[p], p, sizes, |sizes|);
    assert RoundIs(RoundAt(net.scripts[p], r), p, r, sizes, |sizes|);
  }

  lemma {:induction false} ExchangePairs<T>(net: Net<Segment, seq<T>, seq<T>>, sizes: seq<nat>)
    requires AreScripts(net.scripts, sizes)
    ensures Consistent(net)
  {
    hide ExchangeRound;
    forall p, r: nat | 0 <= p < |sizes|
      ensures OutAt(net, p, r).Some? ==> SendMatched(net, p, r)
      ensures InAt(net, p, r).Some? ==> ReceiveMatched(net, p, r)
    {
      RoundOf(net, sizes, p, r);
      RoundsPair(p, r, sizes);
      if OutAt(net, p, r).Some? {
        RoundOf(net, sizes, OutAt(net, p, r).value.peer, r);
      }
      if InAt(net, p, r).Some? {
        RoundOf(net, sizes, InAt(net, p, r).value.peer, r);
      }
    }
  }

  /** The data of the hosts that host h has heard from before round r, in buffer order. */
  ghost function HeldData<T>(data: seq<seq<T>>, h: nat, r: nat): (d: seq<T>)
    requires h < |data|
    ensures |d| == HeldBytes(Sizes(data), h, r, |data|)
  {
    HeldInRange(h, r, |data|);
    FlatLength(data, Held(h, r, |data|));
    Flat(data, Held(h, r, |data|))
  }

  lemma {:induction false} HeldDataStep<T>(data: seq<seq<T>>, h: nat, r: nat)
    requires h < |data|
    ensures HeldData(data, h, 0) == data[h]
    ensures var n, q := |data|, PeerIn(h, r, |data|);
      && (q.None? ==> HeldData(data, h, r + 1) == HeldData(data, h, r))
      && (q.Some? && r <= Levels(n) ==>
            q.value < n && HeldData(data, h, r + 1) == HeldData(data, h, r) + HeldData(data, q.value, r))
      && (q.Some? && r > Levels(n) ==> q.value < n && HeldData(data, h, r + 1) == HeldData(data, q.value, r))
  {
    var n := |data|;
    assert Flat(data, [h]) == data[h];
    HeldStep(h, r, n);
    var q := PeerIn(h, r, n);
    if q.Some? {
      HeldInRange(h, r, n);
      HeldInRange(q.value, r, n);
      FlatConcat(data, Held(h, r, n), Held(q.value, r, n));
    }
  }

  /** No host ever holds more than all the data there is. */
  lemma {:induction false} HeldFits<T>(data: seq<seq<T>>, h: nat, r: nat)
    requires h < |data|
    ensures |HeldData(data, h, r)| <= Bytes(Sizes(data), Ascending(|data|))
  {
    var n := |data|;
    var m := Levels(n);
    HeldInRange(h, r, n);
    if h < Pow2(m) && r > 0 {
      OrderHasNoDuplicates(h, if r <= m + 1 then r - 1 else m, n);
    } else if r > m + 1 {
      OrderHasNoDuplicates(h - Pow2(m), m, n);
    }
    BytesOfSome(Sizes(data), Held(h, r, n), n);
  }

  /** One round's receive, as bytes: append, or replace in the last round. */
  lemma {:induction false} ReceiveHolds<T>(data: seq<seq<T>>, h: nat, r: nat, buf: seq<T>, other: seq<T>)
    requires h < |data| && PeerIn(h, r, |data|).Some? && PeerIn(h, r, |data|).value < |data|
    requires HeldData(data, h, r) <= buf && HeldData(data, PeerIn(h, r, |data|).value, r) <= other
    requires Bytes(Sizes(data), Ascending(|data|)) <= |buf|
    ensures var len := |HeldData(data, PeerIn(h, r, |data|).value, r)|;
      var off := if r <= Levels(|data|) then |HeldData(data, h, r)| else 0;
      && |Read(other, Segment(0, len))| == len
      && HeldData(data, h, r + 1) <= Write(buf, off, Read(other, Segment(0, len)))
      && (len == 0 ==> HeldData(data, h, r + 1) <= buf)
  {
    hide HeldData, PeerIn, Levels, Read, Write, Bytes;
    var q := PeerIn(h, r, |data|).value;
    HeldDataStep(data, h, r);
    HeldFits(data, h, r + 1);
    ReadFront(other, HeldData(data, q, r));
    if r <= Levels(|data|) {
      WriteAfter(buf, HeldData(data, h, r), HeldData(data, q, r));
    } else {
      WriteFront(buf, HeldData(data, q, r));
    }
  }

  /** Before round r of the round-by-round run, every buffer begins with what its host holds. */
  ghost predicate AllHold<T>(data: seq<seq<T>>, bufs: seq<seq<T>>, r: nat) {
    |bufs| == |data| &&
    forall h {:trigger HoldsAt(data, bufs[h], h, r)} :: 0 <= h < |data| ==> HoldsAt(data, bufs[h], h, r)
  }

  ghost predicate HoldsAt<T>(data: seq<seq<T>>, buf: seq<T>, h: nat, r: nat)
    requires h < |data|
  {
    HeldData(data, h, r) <= buf && Bytes(Sizes(data), Ascending(|data|)) <= |buf|
  }

  lemma {:induction false} IncomingIs(h: nat, r: nat, sizes: seq<nat>)
    requires h < |sizes|
    ensures var n, inc := |sizes|, ExchangeRound(h, r, sizes, |sizes|).inc;
      && (PeerIn(h, r, n).None? ==> inc.None?)
      && (PeerIn(h, r, n).Some? ==>
            var q := PeerIn(h, r, n).value;
            && q < n
            && (inc.None? <==> HeldBytes(sizes, q, r, n) == 0)
            && (inc.Some? ==> inc.value.peer == q)
            && (inc.Some? ==> inc.value.how.len == HeldBytes(sizes, q, r, n))
            && (inc.Some? ==> inc.value.how.off == if r <= Levels(n) then HeldBytes(sizes, h, r, n) else 0))
  {
    hide HeldBytes;
    PeersPair(h, r, |sizes|);
  }

  lemma {:induction false} RoundHolds<T>(net: Net<Segment, seq<T>, seq<T>>, init: seq<seq<T>>, t: seq<seq<seq<T>>>,
                                         data: seq<seq<T>>, r: nat, h: nat)
    requires net == BufferNet<T>(net.scripts) && AreScripts(net.scripts, Sizes(data))
    requires |init| == |data| && Consistent(net) && IsTrace(net, init, t) && r + 1 < |t|
    requires AllHold(data, t[r], r) && h < |data|
    ensures HoldsAt(data, t[r + 1][h], h, r + 1)
    ensures InAt(net, h, r).Some? ==> AcceptsIn(net, t, h, r)
  {
    hide ExchangeRound, PeerIn, HeldData;
    var n, sizes := |data|, Sizes(data);
    RoundOf(net, sizes, h, r);
    IncomingIs(h, r, sizes);
    TraceNext(net, init, t, r, h);
    assert HoldsAt(data, t[r][h], h, r);
    if PeerIn(h, r, n).Some? {
      var q := PeerIn(h, r, n).value;
      assert HoldsAt(data, t[r][q], q, r);
      RoundOf(net, sizes, q, r);
      RoundsPair(h, r, sizes);
      ReceiveHolds(data, h, r, t[r][h], t[r][q]);
    } else {
      HeldDataStep(data, h, r);
    }
  }

  lemma {:induction false} TraceHolds<T>(net: Net<Segment, seq<T>, seq<T>>, init: seq<seq<T>>, t: seq<seq<seq<T>>>,
                                         data: seq<seq<T>>, r: nat)
    requires net == BufferNet<T>(net.scripts) && AreScripts(net.scripts, Sizes(data))
    requires |init| == |data| && Consistent(net) && IsTrace(net, init, t) && r < |t|
    requires AllHold(data, init, 0)
    ensures AllHold(data, t[r], r)
    decreases r
  {
    assert |net.scripts| == |data|;
    hide HoldsAt, AreScripts, IsTrace, BufferNet;
    if r == 0 {
      TraceStart(net, init, t);
    } else {
      TraceHolds(net, init, t, data, r - 1);
      TraceShape(net, init, t, r);
      forall h | 0 <= h < |data|
        ensures HoldsAt(data, t[r][h], h, r)
      {
        RoundHolds(net, init, t, data, r - 1, h);
      }
    }
  }

  /** The order in which host h finds the hosts' data in its buffer in the end. */
  ghost function DataHostOrder(h: nat, n: nat): seq<nat>
    requires h < n
  {
    Order(Corner(h, n), Levels(n), n)
  }

  lemma {:induction false} FinalHeld<T>(data: seq<seq<T>>, h: nat)
    requires h < |data|
    ensures IsPermutation(DataHostOrder(h, |data|), |data|)
    ensures HeldData(data, h, Levels(|data|) + 2) == Flat(data, DataHostOrder(h, |data|))
  {
    FullOrderIsPermutation(Corner(h, |data|), |data|);
  }

  /** No receive is ever posted for a different number of bytes than was sent. */
  lemma {:induction false} LengthsAgree<T>(net: Net<Segment, seq<T>, seq<T>>, init: seq<seq<T>>, data: seq<seq<T>>)
    requires net == BufferNet<T>(net.scripts) && AreScripts(net.scripts, Sizes(data))
    requires |init| == |data| && AllHold(data, init, 0) && Consistent(net)
    ensures Accepting(net, init)
  {
    assert |net.scripts| == |data|;
    hide HoldsAt, AreScripts, IsTrace, BufferNet, AcceptsIn;
    var t := Trace(net, init);
    forall p, r: nat | 0 <= p < |data| && r < MaxLength(net.scripts) && InAt(net, p, r).Some?
      ensures AcceptsIn(net, t, p, r)
    {
      TraceHolds(net, init, t, data, r);
      RoundHolds(net, init, t, data, r, p);
    }
    AcceptingFromTrace(net, init);
  }

  /**
   Whatever the interleaving, when the exchange is over every host's buffer begins with the
   data of all hosts, each once, in that host's own data order; until then some host can go
   on, even with synchronous sends.
   */
  lemma {:induction false} ExchangeDelivers<T>(net: Net<Segment, seq<T>, seq<T>>, init: seq<seq<T>>, data: seq<seq<T>>,
                                               sched: seq<nat>)
    requires net == BufferNet<T>(net.scripts) && AreScripts(net.scripts, Sizes(data))
    requires |init| == |data| >= 1
    requires forall h :: 0 <= h < |data| ==> data[h] <= init[h]
    requires forall h :: 0 <= h < |data| ==> Bytes(Sizes(data), Ascending(|data|)) <= |init[h]|
    ensures Consistent(net)
    ensures var n, c := |data|, Exec(net, Start(net, init), sched);
      if Done(net, c)
      then forall h :: 0 <= h < n ==>
        IsPermutation(DataHostOrder(h, n), n) && Flat(data, DataHostOrder(h, n)) <= c.local[h]
      else exists p :: CanMove(net, c, p, true)
  {
    ExchangePairs(net, Sizes(data));
    forall h | 0 <= h < |data|
      ensures HoldsAt(data, init[h], h, 0)
    {
      HeldDataStep(data, h, 0);
    }
    LengthsAgree(net, init, data);
    FinalState(net, init, data, sched);
    RunsOn(net, init, sched);
  }

  lemma {:induction false} TraceEnds<T>(net: Net<Segment, seq<T>, seq<T>>, init: seq<seq<T>>, data: seq<seq<T>>, h: nat)
    requires net == BufferNet<T>(net.scripts) && AreScripts(net.scripts, Sizes(data))
    requires |init| == |data| >= 1 && Consistent(net) && AllHold(data, init, 0) && h < |data|
    ensures IsPermutation(DataHostOrder(h, |data|), |data|)
    ensures Flat(data, DataHostOrder(h, |data|)) <= Trace(net, init)[MaxLength(net.scripts)][h]
  {
    hide IsPermutation, BufferNet, Flat, HeldData, DataHostOrder;
    var n := |data|;
    forall p | 0 <= p < n
      ensures |net.scripts[p]| == Levels(n) + 2
    {
      assert IsScript(net.scripts[p], p, Sizes(data), n);
    }
    ScriptLengths(net.scripts, Levels(n) + 2);
    var t := Trace(net, init);
    TraceHolds(net, init, t, data, Levels(n) + 2);
    FinalHeld(data, h);
    assert HoldsAt(data, t[Levels(n) + 2][h], h, Levels(n) + 2);
  }

  lemma {:induction false} FinalState<T>(net: Net<Segment, seq<T>, seq<T>>, init: seq<seq<T>>, data: seq<seq<T>>,
                                         sched: seq<nat>)
    requires net == BufferNet<T>(net.scripts) && AreScripts(net.scripts, Sizes(data))
    requires |init| == |data| >= 1 && Consistent(net) && AllHold(data, init, 0)
    ensures var n, c := |data|, Exec(net, Start(net, init), sched);
      Done(net, c) ==>
        forall h :: 0 <= h < n ==>
          IsPermutation(DataHostOrder(h, n), n) && Flat(data, DataHostOrder(h, n)) <= c.local[h]
  {
    assert |net.scripts| == |data|;
    hide Done, IsPermutation, BufferNet, Flat, DataHostOrder, AreScripts, AllHold, Trace, MaxLength;
    var n, c := |data|, Exec(net, Start(net, init), sched);
    if Done(net, c) {
      EveryRunAgrees(net, init, sched);
      forall h | 0 <= h < n
        ensures IsPermutation(DataHostOrder(h, n), n) && Flat(data, DataHostOrder(h, n)) <= c.local[h]
      {
        TraceEnds(net, init, data, h);
      }
    }
  }
}
