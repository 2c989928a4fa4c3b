/** The recursive-doubling prefix reduction of `_ulm_scan`, as `ulm_scan` calls it. */
module Scan {
  import opened Bits
  import opened Folds
  import opened Network

  /** Under shift `2^k` a process sends up and receives from below, where such ranks exist. */
  ghost function ScanRound(self: nat, k: nat, nproc: nat): Round<()> {
    Round(
      if self + Pow2(k) < nproc then Some(Half(self + Pow2(k), ())) else None,
      if Pow2(k) <= self then Some(Half(self - Pow2(k), ())) else None)
  }

  ghost predicate IsScript(script: seq<Round<()>>, self: nat, nproc: nat) {
    forall k: nat :: RoundAt(script, k) == ScanRound(self, k, nproc)
  }

  /** The shift loop of the source, with root 0 and forward sense. */
  method ScanScript(self: nat, nproc: nat) returns (script: seq<Round<()>>)
    requires self < nproc
    ensures IsScript(script, self, nproc)
  {
    script := [];
    var shift := 1;
    ghost var k := 0;
    while shift < nproc
      invariant shift == Pow2(k) && k == |script|
      invariant forall j: nat :: j < k ==> script[j] == ScanRound(self, j, nproc)
      decreases nproc - shift
    {
      var sendPeer: int := self + shift;
      var recvPeer: int := self - shift;
      var out := if 0 <= sendPeer < nproc then Some(Half(sendPeer, ())) else None;
      var inc := if 0 <= recvPeer < nproc then Some(Half(recvPeer, ())) else None;
      script := script + [Round(out, inc)];
      shift := 2 * shift;
      k := k + 1;
    }
    forall j: nat
      ensures RoundAt(script, j) == ScanRound(self, j, nproc)
    {
      if j >= k {
        Pow2Monotone(k, j);
      }
    }
  }

  /** The send is complete before the receive is posted; `func` leaves `buf op recvbuf`. */
  ghost function ScanNet<T>(scripts: seq<seq<Round<()>>>, op: (T, T) -> T): Net<(), T, T> {
    Net(scripts, true, (a: (), s: T) => s, (a: (), s: T, m: T) => op(m, s), (a: (), m: T) => true)
  }

  ghost predicate AreScripts(scripts: seq<seq<Round<()>>>, nproc: nat) {
    |scripts| == nproc &&
    forall p {:trigger IsScript(scripts[p], p, nproc)} :: 0 <= p < nproc ==> IsScript(scripts[p], p, nproc)
  }

  lemma {:induction false} RoundPairs<T>(net: Net<(), T, T>, nproc: nat, p: nat, k: nat)
    requires AreScripts(net.scripts, nproc) && p < nproc
    ensures OutAt(net, p, k) == ScanRound(p, k, nproc).out && InAt(net, p, k) == ScanRound(p, k, nproc).inc
    ensures OutAt(net, p, k).Some? ==> SendMatched(net, p, k)
    ensures InAt(net, p, k).Some? ==> ReceiveMatched(net, p, k)
  {
    assert IsScript(net.scripts[p], p, nproc);
    assert RoundAt(net.scripts[p], k) == ScanRound(p, k, nproc);
    if p + Pow2(k) < nproc {
      var q := p + Pow2(k);
      assert IsScript(net.scripts[q], q, nproc);
      assert RoundAt(net.scripts[q], k) == ScanRound(q, k, nproc);
    }
    if Pow2(k) <= p {
      var q := p - Pow2(k);
      assert IsScript(net.scripts[q], q, nproc);
      assert RoundAt(net.scripts[q], k) == ScanRound(q, k, nproc);
    }
  }

  lemma {:induction false} ScanPairs<T>(net: Net<(), T, T>, nproc: nat)
    requires AreScripts(net.scripts, nproc)
    ensures Consistent(net)
    ensures Downhill(net, seq(nproc, p requires 0 <= p < nproc => nproc - p))
  {
    forall p, k: nat | 0 <= p < nproc
      ensures OutAt(net, p, k).Some? ==> SendMatched(net, p, k) && p < OutAt(net, p, k).value.peer < nproc
      ensures InAt(net, p, k).Some? ==> ReceiveMatched(net, p, k)
    {
      RoundPairs(net, nproc, p, k);
    }
  }

  /** The ranks that process `p` has heard from before shift `2^k`. */
  function First(p: nat, k: nat): nat { if Pow2(k) <= p then p + 1 - Pow2(k) else 0 }

  lemma {:induction false} ScanStep<T>(net: Net<(), T, T>, op: (T, T) -> T, init: seq<T>, t: seq<seq<T>>, nproc: nat,
                                       k: nat, p: nat)
    requires AreScripts(net.scripts, nproc) && net == ScanNet(net.scripts, op)
    requires |init| == nproc && Consistent(net) && IsTrace(net, init, t)
    requires k + 1 < |t| && p < nproc
    ensures t[k + 1][p] == if Pow2(k) <= p then op(t[k][p - Pow2(k)], t[k][p]) else t[k][p]
  {
    TraceNext(net, init, t, k, p);
    RoundPairs(net, nproc, p, k);
  }

  lemma {:induction false} WindowJoin<T(!new)>(op: (T, T) -> T, init: seq<T>, k: nat, p: nat)
    requires Associative(op) && Pow2(k) <= p < |init|
    ensures var q := p - Pow2(k);
      Fold(op, init[First(p, k + 1)..p + 1]) ==
      op(Fold(op, init[First(q, k)..q + 1]), Fold(op, init[First(p, k)..p + 1]))
  {
    hide Pow2, Fold, Associative;
    var q := p - Pow2(k);
    var lower, upper := init[First(q, k)..q + 1], init[First(p, k)..p + 1];
    FirstsMeet(k, p);
    JoinParts(init, First(q, k), q + 1, p + 1);
    FoldConcat(op, lower, upper);
  }

  lemma {:induction false} FirstsMeet(k: nat, p: nat)
    requires Pow2(k) <= p
    ensures First(p, k + 1) == First(p - Pow2(k), k) <= p - Pow2(k) && p - Pow2(k) + 1 == First(p, k)
  {
  }

  lemma {:induction false} JoinParts<T>(s: seq<T>, a: nat, b: nat, c: nat)
    requires a <= b <= c <= |s|
    ensures s[a..c] == s[a..b] + s[b..c]
  {
  }

  lemma {:induction false} FirstWindow<T>(net: Net<(), T, T>, op: (T, T) -> T, init: seq<T>, t: seq<seq<T>>, nproc: nat,
                                          p: nat)
    requires AreScripts(net.scripts, nproc) && |init| == nproc && Consistent(net) && IsTrace(net, init, t) && p < nproc
    ensures t[0] == init && t[0][p] == Fold(op, init[First(p, 0)..p + 1])
  {
    hide Consistent;
    assert init[p..p + 1] == [init[p]];
  }

  /** Before shift `2^k`, process p holds the in-order fold of the 2^k ranks ending at p. */
  lemma {:induction false} Window<T(!new)>(net: Net<(), T, T>, op: (T, T) -> T, init: seq<T>, t: seq<seq<T>>,
                                           nproc: nat, k: nat, p: nat)
    requires AreScripts(net.scripts, nproc) && net == ScanNet(net.scripts, op)
    requires |init| == nproc && Consistent(net) && IsTrace(net, init, t)
    requires Associative(op) && k < |t| && p < nproc
    ensures t[k][p] == Fold(op, init[First(p, k)..p + 1])
    decreases k
  {
    hide AreScripts, Consistent, ScanNet, Associative, Fold;
    if k == 0 {
      FirstWindow(net, op, init, t, nproc, p);
    } else {
      Window(net, op, init, t, nproc, k - 1, p);
      ScanStep(net, op, init, t, nproc, k - 1, p);
      if Pow2(k - 1) <= p {
        Window(net, op, init, t, nproc, k - 1, p - Pow2(k - 1));
        WindowJoin(op, init, k - 1, p);
      }
    }
  }

  /**
   Every run gives process p the fold of ranks 0 to p in rank order, for an associative and
   possibly non-commutative operation; and fully synchronous sends do not deadlock it.
   */
  lemma {:induction false} ScanIsPrefixFold<T(!new)>(net: Net<(), T, T>, op: (T, T) -> T, init: seq<T>, nproc: nat,
                                                     sched: seq<nat>)
    requires AreScripts(net.scripts, nproc) && net == ScanNet(net.scripts, op)
    requires Associative(op) && |init| == nproc
    ensures Consistent(net)
    ensures var c := Exec(net, Start(net, init), sched);
      if Done(net, c)
      then forall p :: 0 <= p < nproc ==> c.local[p] == Fold(op, init[..p + 1])
      else exists p :: CanMove(net, c, p, true)
  {
    ScanPairs(net, nproc);
    var c := Exec(net, Start(net, init), sched);
    if Done(net, c) {
      EveryRunAgrees(net, init, sched);
      var top := MaxLength(net.scripts);
      forall p | 0 <= p < nproc
        ensures c.local[p] == Fold(op, init[..p + 1])
      {
        RoundPairs(net, nproc, p, top);
        Window(net, op, init, Trace(net, init), nproc, top, p);
        assert init[0..p + 1] == init[..p + 1];
      }
    } else {
      var p := NeverStuck(net, init, seq(nproc, p requires 0 <= p < nproc => nproc - p), sched);
    }
  }
}
