/** The binomial fan-out over hosts of `ulm_bcast_interhost`. */
module BcastInterhost {
  import opened Bits
  import opened Ranks
  import opened Network

  /** What the host with relative rank `self` does under mask `2^k`. */
  ghost function BcastRound(self: nat, k: nat, root: nat, nhost: nat): Round<()>
    requires self < nhost && root < nhost
  {
    var peer := Flip(self, k);
    if self >= 2 * Pow2(k) || peer >= nhost then Idle()
    else if self < peer then Round(Some(Half(ToAbsolute(peer, root, nhost), ())), None)
    else Round(None, Some(Half(ToAbsolute(peer, root, nhost), ())))
  }

  ghost predicate IsScript(script: seq<Round<()>>, host: nat, root: nat, nhost: nat)
    requires host < nhost && root < nhost
  {
    forall k: nat :: RoundAt(script, k) == BcastRound(ToRelative(host, root, nhost), k, root, nhost)
  }

  lemma {:induction false} Peer(self: nat, k: nat)
    requires self < 2 * Pow2(k)
    ensures self < Pow2(k) ==> !Bit(self, k) && Flip(self, k) == self + Pow2(k)
    ensures Pow2(k) <= self ==> Bit(self, k) && Flip(self, k) == self - Pow2(k)
  {
    HighStep(self, k);
    HighOfSmall(self, k);
    HighOfSmall(self, k + 1);
    FlipValue(self, k);
  }

  /** Once its partner is out of range a host has nothing left to send or receive. */
  lemma {:induction false} NothingAfterBreak(self: nat, k: nat, j: nat, root: nat, nhost: nat)
    requires self < nhost && root < nhost && k <= j
    requires self < 2 * Pow2(k) && Flip(self, k) >= nhost
    ensures BcastRound(self, j, root, nhost) == Idle()
  {
    Peer(self, k);
    Pow2Monotone(k, j);
    Peer(self, j);
  }

  /** The loop of the source: skip, leave early, send or receive under each mask. */
  method BcastScript(host: nat, root: nat, nhost: nat) returns (script: seq<Round<()>>)
    requires host < nhost && root < nhost
    ensures IsScript(script, host, root, nhost)
  {
    script := [];
    ModuloForms(host, root, nhost);
    var self := (host - root + nhost) % nhost;
    var mask := 1;
    ghost var k := 0;
    while mask < nhost
      invariant mask == Pow2(k) && k == |script|
      invariant forall j: nat :: j < k ==> script[j] == BcastRound(self, j, root, nhost)
      decreases nhost - mask
    {
      if self >= 2 * mask {
        script := script + [Idle()];
      } else {
        XorPow2IsFlip(self, k);
        Peer(self, k);
        var peer := Xor(self, mask);
        if peer >= nhost {
          break;
        }
        ModuloForms(peer, root, nhost);
        var peerHost := (peer + root) % nhost;
        if self < peer {
          script := script + [Round(Some(Half(peerHost, ())), None)];
        } else {
          script := script + [Round(None, Some(Half(peerHost, ())))];
        }
      }
      mask := 2 * mask;
      k := k + 1;
    }
    forall j: nat
      ensures RoundAt(script, j) == BcastRound(self, j, root, nhost)
    {
      if j >= k {
        Pow2Monotone(k, j);
        if mask >= nhost {
          Peer(self, k);
        }
        NothingAfterBreak(self, k, j, root, nhost);
      }
    }
  }

  ghost function BcastNet<T>(scripts: seq<seq<Round<()>>>): Net<(), T, T> {
    Net(scripts, false, (a: (), s: T) => s, (a: (), s: T, m: T) => m, (a: (), m: T) => true)
  }

  ghost predicate AreScripts(scripts: seq<seq<Round<()>>>, root: nat, nhost: nat)
    requires root < nhost
  {
    |scripts| == nhost &&
    forall h {:trigger IsScript(scripts[h], h, root, nhost)} :: 0 <= h < nhost ==> IsScript(scripts[h], h, root, nhost)
  }

  /** Sender and receiver of a mask name each other. */
  lemma {:induction false} PeerRound(self: nat, k: nat, root: nat, nhost: nat)
    requires self < nhost && root < nhost && self < 2 * Pow2(k) && Flip(self, k) < nhost
    ensures var peer := Flip(self, k);
      var me, other := BcastRound(self, k, root, nhost), BcastRound(peer, k, root, nhost);
      if self < Pow2(k)
      then me.out == Some(Half(ToAbsolute(peer, root, nhost), ())) && me.inc == None &&
           other.inc == Some(Half(ToAbsolute(self, root, nhost), ()))
      else me.inc == Some(Half(ToAbsolute(peer, root, nhost), ())) && me.out == None &&
           other.out == Some(Half(ToAbsolute(self, root, nhost), ()))
  {
    Peer(self, k);
    Peer(Flip(self, k), k);
    FlipTwice(self, k);
  }

  lemma {:induction false} RoundPairs<T>(net: Net<(), T, T>, root: nat, nhost: nat, h: nat, k: nat)
    requires root < nhost && AreScripts(net.scripts, root, nhost) && h < nhost
    ensures InAt(net, h, k).Some? <==> Pow2(k) <= ToRelative(h, root, nhost) < 2 * Pow2(k)
    ensures InAt(net, h, k).Some? ==>
      InAt(net, h, k).value.peer == ToAbsolute(ToRelative(h, root, nhost) - Pow2(k), root, nhost)
    ensures OutAt(net, h, k).Some? ==> SendMatched(net, h, k)
    ensures InAt(net, h, k).Some? ==> ReceiveMatched(net, h, k)
  {
    assert IsScript(net.scripts[h], h, root, nhost);
    var self := ToRelative(h, root, nhost);
    assert RoundAt(net.scripts[h], k) == BcastRound(self, k, root, nhost);
    if self < 2 * Pow2(k) {
      Peer(self, k);
      var peer := Flip(self, k);
      if peer < nhost {
        PeerRound(self, k, root, nhost);
        var g := ToAbsolute(peer, root, nhost);
        assert IsScript(net.scripts[g], g, root, nhost);
        assert RoundAt(net.scripts[g], k) == BcastRound(peer, k, root, nhost);
      }
    }
  }

  /**
   The host of relative rank r > 0 receives once, under the mask that is its top bit, from
   r minus that mask; the send it is paired with is in the script of that host.
   */
  lemma {:induction false} BcastPairs<T>(net: Net<(), T, T>, root: nat, nhost: nat)
    requires root < nhost && AreScripts(net.scripts, root, nhost)
    ensures Consistent(net)
    ensures forall h, k: nat :: 0 <= h < nhost ==>
      (InAt(net, h, k).Some? <==> Pow2(k) <= ToRelative(h, root, nhost) < 2 * Pow2(k))
  {
    forall h, k: nat | 0 <= h < nhost
      ensures InAt(net, h, k).Some? <==> Pow2(k) <= ToRelative(h, root, nhost) < 2 * Pow2(k)
      ensures OutAt(net, h, k).Some? ==> SendMatched(net, h, k)
      ensures InAt(net, h, k).Some? ==> ReceiveMatched(net, h, k)
    {
      RoundPairs(net, root, nhost, h, k);
    }
  }

  lemma {:induction false} BcastStep<T>(net: Net<(), T, T>, init: seq<T>, t: seq<seq<T>>, root: nat, nhost: nat,
                                        k: nat, h: nat)
    requires root < nhost && AreScripts(net.scripts, root, nhost) && net == BcastNet<T>(net.scripts)
    requires |init| == nhost && Consistent(net) && IsTrace(net, init, t)
    requires k + 1 < |t| && h < nhost
    ensures var self := ToRelative(h, root, nhost);
      t[k + 1][h] ==
      if Pow2(k) <= self < 2 * Pow2(k) then t[k][ToAbsolute(self - Pow2(k), root, nhost)] else t[k][h]
  {
    TraceNext(net, init, t, k, h);
    RoundPairs(net, root, nhost, h, k);
  }

  /** Before mask `2^k`, exactly the hosts of relative rank below it hold the root's data. */
  lemma {:induction false} Frontier<T>(net: Net<(), T, T>, init: seq<T>, t: seq<seq<T>>, root: nat, nhost: nat,
                                       k: nat, h: nat)
    requires root < nhost && AreScripts(net.scripts, root, nhost) && net == BcastNet<T>(net.scripts)
    requires |init| == nhost && Consistent(net) && IsTrace(net, init, t)
    requires k < |t| && h < nhost
    ensures t[k][h] == if ToRelative(h, root, nhost) < Pow2(k) then init[root] else init[h]
    decreases k
  {
    var self := ToRelative(h, root, nhost);
    if k == 0 {
      assert self == 0 ==> h == root;
    } else {
      Frontier(net, init, t, root, nhost, k - 1, h);
      BcastStep(net, init, t, root, nhost, k - 1, h);
      if Pow2(k - 1) <= self < 2 * Pow2(k - 1) {
        Frontier(net, init, t, root, nhost, k - 1, ToAbsolute(self - Pow2(k - 1), root, nhost));
      }
    }
  }

  /** Every run, in any interleaving, leaves the root's data on every host. */
  lemma {:induction false} BcastDelivers<T>(net: Net<(), T, T>, init: seq<T>, root: nat, nhost: nat, sched: seq<nat>)
    requires root < nhost && AreScripts(net.scripts, root, nhost) && net == BcastNet<T>(net.scripts)
    requires |init| == nhost
    ensures Consistent(net)
    ensures var c := Exec(net, Start(net, init), sched);
      if Done(net, c)
      then forall h :: 0 <= h < nhost ==> c.local[h] == init[root]
      else exists p :: CanMove(net, c, p, true)
  {
    BcastPairs(net, root, nhost);
    var c := Exec(net, Start(net, init), sched);
    if Done(net, c) {
      EveryRunAgrees(net, init, sched);
      forall h | 0 <= h < nhost
        ensures c.local[h] == init[root]
      {
        ReceivesEnd(net, root, nhost, h);
        var top := MaxLength(net.scripts);
        Frontier(net, init, Trace(net, init), root, nhost, top, h);
      }
    } else {
      var p := NeverStuck(net, init, seq(nhost, i => 0), sched);
    }
  }

  /** The scripts are long enough for every host to be reached. */
  lemma {:induction false} ReceivesEnd<T>(net: Net<(), T, T>, root: nat, nhost: nat, h: nat)
    requires root < nhost && AreScripts(net.scripts, root, nhost) && h < nhost
    requires Consistent(net)
    ensures ToRelative(h, root, nhost) < Pow2(MaxLength(net.scripts))
  {
    var self := ToRelative(h, root, nhost);
    var top := MaxLength(net.scripts);
    if self >= Pow2(top) {
      var k := TopBit(self, top);
      RoundPairs(net, root, nhost, h, k);
    }
  }

  lemma {:induction false} TopBit(x: nat, low: nat) returns (k: nat)
    requires x >= Pow2(low)
    ensures k >= low && Pow2(k) <= x < 2 * Pow2(k)
    decreases x - Pow2(low)
  {
    if x < 2 * Pow2(low) {
      k := low;
    } else {
      k := TopBit(x, low + 1);
    }
  }
}
