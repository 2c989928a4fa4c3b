/** The barrier between the representative processes of the hosts, `ulm_barrier_interhost`. */
module BarrierInterhost {
  import opened Bits
  import opened Network
  import opened Hypercube

  function HalfTo(q: Option<nat>): Option<Half<()>> {
    match q case Some(p) => Some(Half(p, ())) case None => None
  }

  ghost function BarrierRound(p: nat, r: nat, n: nat): Round<()>
    requires p < n
  {
    Round(HalfTo(PeerOut(p, r, n)), HalfTo(PeerIn(p, r, n)))
  }

  function ScriptLength(n: nat): nat
    requires n >= 1
  {
    if n > 1 then Levels(n) + 2 else 0
  }

  ghost predicate IsScript(script: seq<Round<()>>, p: nat, n: nat)
    requires p < n
  {
    && |script| == ScriptLength(n)
    && forall r: nat {:trigger RoundAt(script, r)} :: RoundAt(script, r) == BarrierRound(p, r, n)
  }

  method LargestPower(nhost: nat) returns (nhost2: nat)
    requires nhost >= 1
    ensures nhost2 == Pow2(Levels(nhost))
  {
    nhost2 := 1;
    var n := nhost / 2;
    ghost var k := 0;
    while n > 0
      invariant nhost2 == Pow2(k)
      invariant if n > 0 then Levels(n) + k + 1 == Levels(nhost) else k == Levels(nhost)
    {
      nhost2 := 2 * nhost2;
      n := n / 2;
      k := k + 1;
    }
  }

  /** Setup phase: the hosts past the power of two report to a low host. */
  method SetupPhase(selfHost: nat, nhost: nat, nhost2: nat) returns (round: Round<()>)
    requires selfHost < nhost && nhost2 == Pow2(Levels(nhost))
    ensures round == BarrierRound(selfHost, 0, nhost)
  {
    round := Idle();
    if nhost != nhost2 {
      if selfHost < nhost2 && selfHost + nhost2 < nhost {
        round := Round(None, Some(Half(selfHost + nhost2, ())));
      } else if selfHost - nhost2 >= 0 {
        round := Round(Some(Half(selfHost - nhost2, ())), None);
      }
    }
  }

  /** Final phase: the low hosts let them go. */
  method FinalPhase(selfHost: nat, nhost: nat, nhost2: nat) returns (round: Round<()>)
    requires selfHost < nhost && nhost2 == Pow2(Levels(nhost))
    ensures round == BarrierRound(selfHost, Levels(nhost) + 1, nhost)
  {
    round := Idle();
    if nhost != nhost2 {
      if selfHost < nhost2 && selfHost + nhost2 < nhost {
        round := Round(Some(Half(selfHost + nhost2, ())), None);
      } else if selfHost - nhost2 >= 0 {
        round := Round(None, Some(Half(selfHost - nhost2, ())));
      }
    }
  }

  lemma {:induction false} MainRound(selfHost: nat, k: nat, nhost: nat)
    requires selfHost < nhost && k < Levels(nhost)
    ensures BarrierRound(selfHost, k + 1, nhost) ==
      if selfHost < Pow2(Levels(nhost))
      then Round(Some(Half(Xor(selfHost, Pow2(k)), ())), Some(Half(Xor(selfHost, Pow2(k)), ())))
      else Idle()
  {
    XorPow2IsFlip(selfHost, k);
  }

  lemma {:induction false} Complete(script: seq<Round<()>>, p: nat, n: nat)
    requires p < n && n > 1 && |script| == Levels(n) + 2
    requires forall r :: 0 <= r < |script| ==> script[r] == BarrierRound(p, r, n)
    ensures IsScript(script, p, n)
  {
  }

  /** The messages of one host's representative, phase by phase. */
  method BarrierScript(selfHost: nat, nhost: nat) returns (script: seq<Round<()>>)
    requires selfHost < nhost
    ensures IsScript(script, selfHost, nhost)
  {
    if nhost == 1 {
      return [];
    }
    hide BarrierRound, IsScript, Levels, Xor;
    ghost var m := Levels(nhost);
    var nhost2 := LargestPower(nhost);
    var round := SetupPhase(selfHost, nhost, nhost2);
    script := [round];
    var mask := 1;
    ghost var k := 0;
    while mask < nhost2
      invariant mask == Pow2(k) && k <= m && |script| == k + 1
      invariant forall r :: 0 <= r < |script| ==> script[r] == BarrierRound(selfHost, r, nhost)
      decreases m - k
    {
      MainRound(selfHost, k, nhost);
      round := Idle();
      if selfHost < nhost2 {
        var peerHost := Xor(selfHost, mask);
        round := Round(Some(Half(peerHost, ())), Some(Half(peerHost, ())));
      }
      script := script + [round];
      mask := 2 * mask;
      k := k + 1;
    }
    if k < m {
      Pow2Monotone(k + 1, m);
    }
    round := FinalPhase(selfHost, nhost, nhost2);
    script := script + [round];
    Complete(script, selfHost, nhost);
  }

  /** A host's state is what it knows of who has entered; a message passes it on. */
  ghost function BarrierNet<X>(scripts: seq<seq<Round<()>>>): Net<(), set<X>, set<X>> {
    Net(scripts, false,
        (a: (), s: set<X>) => s,
        (a: (), s: set<X>, m: set<X>) => s + m,
        (a: (), m: set<X>) => true)
  }

  ghost predicate AreScripts(scripts: seq<seq<Round<()>>>, n: nat) {
    |scripts| == n &&
    forall p {:trigger IsScript(scripts[p], p, n)} :: 0 <= p < n ==> IsScript(scripts[p], p, n)
  }

  lemma {:induction false} RoundOf(scripts: seq<seq<Round<()>>>, n: nat, p: nat, r: nat)
    requires AreScripts(scripts, n) && p < n
    ensures RoundAt(scripts[p], r) == BarrierRound(p, r, n)
  {
    assert IsScript(scripts[p], p, n);
  }

  lemma {:induction false} BarrierPairs<S, M>(net: Net<(), S, M>, n: nat)
    requires AreScripts(net.scripts, n)
    ensures Consistent(net)
  {
    hide PeerIn, PeerOut;
    forall p, r: nat | 0 <= p < n
      ensures OutAt(net, p, r).Some? ==> SendMatched(net, p, r)
      ensures InAt(net, p, r).Some? ==> ReceiveMatched(net, p, r)
    {
      RoundOf(net.scripts, n, p, r);
      PeersPair(p, r, n);
      if OutAt(net, p, r).Some? {
        RoundOf(net.scripts, n, OutAt(net, p, r).value.peer, r);
      }
      if InAt(net, p, r).Some? {
        RoundOf(net.scripts, n, InAt(net, p, r).value.peer, r);
      }
    }
  }

  ghost function Known(h: nat, r: nat, n: nat): set<nat>
    requires h < n
  {
    set x | x in Held(h, r, n)
  }

  lemma {:induction false} KnownStep(h: nat, r: nat, n: nat)
    requires h < n
    ensures Known(h, 0, n) == {h}
    ensures PeerIn(h, r, n).None? ==> Known(h, r + 1, n) == Known(h, r, n)
    ensures PeerIn(h, r, n).Some? ==>
      PeerIn(h, r, n).value < n && Known(h, r + 1, n) == Known(h, r, n) + Known(PeerIn(h, r, n).value, r, n)
  {
    HeldStep(h, r, n);
    if PeerIn(h, r, n).Some? && r > Levels(n) {
      var q := PeerIn(h, r, n).value;
      FullOrderIsPermutation(q, n);
      assert h in Held(q, r, n);
    }
  }

  /** Did one of these hosts know x? */
  ghost predicate SomeKnew<X>(init: seq<set<X>>, hosts: set<nat>, x: X) {
    exists g :: g in hosts && g < |init| && x in init[g]
  }

  /** Before round r, each host knows exactly what the hosts knew that it has heard from. */
  lemma {:induction false} KnowledgeSpreads<X>(net: Net<(), set<X>, set<X>>, init: seq<set<X>>, t: seq<seq<set<X>>>,
                                               n: nat, r: nat, h: nat, x: X)
    requires AreScripts(net.scripts, n) && net == BarrierNet(net.scripts) && Consistent(net)
    requires |init| == n && IsTrace(net, init, t) && r < |t| && h < n
    ensures x in t[r][h] <==> SomeKnew(init, Known(h, r, n), x)
    decreases r
  {
    hide Known, PeerIn, Consistent;
    if r == 0 {
      KnownStep(h, 0, n);
    } else {
      KnowledgeSpreads(net, init, t, n, r - 1, h, x);
      TraceNext(net, init, t, r - 1, h);
      RoundOf(net.scripts, n, h, r - 1);
      KnownStep(h, r - 1, n);
      if PeerIn(h, r - 1, n).Some? {
        KnowledgeSpreads(net, init, t, n, r - 1, PeerIn(h, r - 1, n).value, x);
      }
    }
  }

  /** Within the hypercube what a host and its partner know is disjoint, and is put together. */
  lemma {:induction false} KnownDoubles(h: nat, l: nat, n: nat, g: nat)
    requires h < n && h < Pow2(Levels(n)) && l < Levels(n) && g == Flip(h, l) < n
    ensures Known(h, l + 2, n) == Known(h, l + 1, n) + Known(g, l + 1, n)
    ensures Known(h, l + 1, n) !! Known(g, l + 1, n)
  {
    hide Held, Order, High;
    FlipBound(h, l, Levels(n));
    KnownStep(h, l + 1, n);
    HeldInCube(h, l, n);
    HeldInCube(g, l, n);
    HalvesOf(h, l, 0);
    forall x {:trigger x in Held(h, l + 1, n)} | x in Held(h, l + 1, n)
      ensures x !in Held(g, l + 1, n)
    {
      OrderMembers(h, l, n, x);
      OrderMembers(g, l, n, x);
    }
  }

  lemma {:induction false} HeldInCube(h: nat, l: nat, n: nat)
    requires h < n && h < Pow2(Levels(n)) && l < Levels(n)
    ensures Held(h, l + 1, n) == Order(h, l, n)
  {
  }

  /** A host that has gone through all rounds knows of every host. */
  lemma {:induction false} KnowsAll(h: nat, n: nat, x: nat)
    requires h < n && x < n
    ensures x in Known(h, Levels(n) + 2, n)
  {
    FullOrderIsPermutation(Corner(h, n), n);
    assert x in Held(h, Levels(n) + 2, n);
  }
}
