/** The binomial fan-in over hosts of `ulm_reduce_interhost`. */
module ReduceInterhost {
  import opened Bits
  import opened FanIn
  import opened Folds
  import opened Ranks
  import opened Network

  /** A host takes part until it has sent, which is when its lowest one bit comes up. */
  ghost function ReduceRound(self: nat, k: nat, root: nat, nhost: nat): Round<()>
    requires self < nhost && root < nhost
  {
    var peer := Flip(self, k);
    if Low(self, k) != 0 || peer >= nhost then Idle()
    else if self < peer then Round(None, Some(Half(ToAbsolute(peer, root, nhost), ())))
    else Round(Some(Half(ToAbsolute(peer, root, nhost), ())), None)
  }

  ghost predicate IsScript(script: seq<Round<()>>, host: nat, root: nat, nhost: nat)
    requires host < nhost && root < nhost
  {
    forall k: nat :: RoundAt(script, k) == ReduceRound(ToRelative(host, root, nhost), k, root, nhost)
  }

  lemma {:induction false} LowStaysNonzero(x: nat, k: nat, j: nat)
    requires Low(x, k) != 0 && k <= j
    ensures Low(x, j) != 0
    decreases j
  {
    if k < j {
      LowStaysNonzero(x, k, j - 1);
      LowStep(x, j - 1);
    }
  }

  lemma {:induction false} PastTheEnd(self: nat, k: nat, root: nat, nhost: nat)
    requires self < nhost && root < nhost && Pow2(k) >= nhost
    ensures ReduceRound(self, k, root, nhost) == Idle()
  {
    FlipValue(self, k);
  }

  /** The loop of the source: receive and combine under each mask, until the one send. */
  method ReduceScript(host: nat, root: nat, nhost: nat) returns (script: seq<Round<()>>)
    requires host < nhost && root < nhost
    ensures IsScript(script, host, root, nhost)
  {
    script := [];
    ModuloForms(host, root, nhost);
    var self := (host - root + nhost) % nhost;
    var mask := 1;
    ghost var k := 0;
    ghost var sent := false;
    while mask < nhost
      invariant mask == Pow2(k) && k == |script| && !sent && Low(self, k) == 0
      invariant forall j: nat :: j < k ==> script[j] == ReduceRound(self, j, root, nhost)
      decreases nhost - mask
    {
      XorPow2IsFlip(self, k);
      FlipValue(self, k);
      LowStep(self, k);
      var peer := Xor(self, mask);
      if peer >= nhost {
        script := script + [Idle()];
      } else {
        ModuloForms(peer, root, nhost);
        var peerHost := (peer + root) % nhost;
        if self < peer {
          script := script + [Round(None, Some(Half(peerHost, ())))];
        } else {
          script := script + [Round(Some(Half(peerHost, ())), None)];
          sent := true;
          k := k + 1;
          break;
        }
      }
      mask := 2 * mask;
      k := k + 1;
    }
    forall j: nat
      ensures RoundAt(script, j) == ReduceRound(self, j, root, nhost)
    {
      if j >= k {
        if sent {
          LowStaysNonzero(self, k, j);
        } else {
          Pow2Monotone(k, j);
          PastTheEnd(self, j, root, nhost);
        }
      }
    }
  }

  /** `func(buf, r_buf)` leaves `buf op r_buf` in `r_buf`. */
  ghost function ReduceNet<T>(scripts: seq<seq<Round<()>>>, op: (T, T) -> T): Net<(), T, T> {
    Net(scripts, false, (a: (), s: T) => s, (a: (), s: T, m: T) => op(m, s), (a: (), m: T) => true)
  }

  ghost predicate AreScripts(scripts: seq<seq<Round<()>>>, root: nat, nhost: nat)
    requires root < nhost
  {
    |scripts| == nhost &&
    forall h {:trigger IsScript(scripts[h], h, root, nhost)} :: 0 <= h < nhost ==> IsScript(scripts[h], h, root, nhost)
  }

  /** Sender and receiver of a mask name each other. */
  lemma {:induction false} PeerRound(self: nat, k: nat, root: nat, nhost: nat)
    requires self < nhost && root < nhost && Low(self, k) == 0 && Flip(self, k) < nhost
    ensures var peer := Flip(self, k);
      var me, other := ReduceRound(self, k, root, nhost), ReduceRound(peer, k, root, nhost);
      if !Bit(self, k)
      then peer == self + Pow2(k) && me.inc == Some(Half(ToAbsolute(peer, root, nhost), ())) && me.out == None &&
           other.out == Some(Half(ToAbsolute(self, root, nhost), ()))
      else me.out == Some(Half(ToAbsolute(peer, root, nhost), ())) && me.inc == None &&
           other.inc == Some(Half(ToAbsolute(self, root, nhost), ()))
  {
    FlipValue(self, k);
    FlipTwice(self, k);
    FlipLow(self, k, k);
  }

  lemma {:induction false} RoundPairs<T>(net: Net<(), T, T>, root: nat, nhost: nat, h: nat, k: nat)
    requires root < nhost && AreScripts(net.scripts, root, nhost) && h < nhost
    ensures var self := ToRelative(h, root, nhost);
      && (InAt(net, h, k).Some? <==> Low(self, k) == 0 && !Bit(self, k) && self + Pow2(k) < nhost)
      && (InAt(net, h, k).Some? ==> InAt(net, h, k).value.peer == ToAbsolute(self + Pow2(k), root, nhost))
    ensures OutAt(net, h, k).Some? ==> SendMatched(net, h, k)
    ensures InAt(net, h, k).Some? ==> ReceiveMatched(net, h, k)
  {
    assert IsScript(net.scripts[h], h, root, nhost);
    var self := ToRelative(h, root, nhost);
    assert RoundAt(net.scripts[h], k) == ReduceRound(self, k, root, nhost);
    var peer := Flip(self, k);
    FlipValue(self, k);
    if Low(self, k) == 0 && peer < nhost {
      PeerRound(self, k, root, nhost);
      var g := ToAbsolute(peer, root, nhost);
      assert IsScript(net.scripts[g], g, root, nhost);
      assert RoundAt(net.scripts[g], k) == ReduceRound(peer, k, root, nhost);
    }
  }

  lemma {:induction false} ReducePairs<T>(net: Net<(), T, T>, root: nat, nhost: nat)
    requires root < nhost && AreScripts(net.scripts, root, nhost)
    ensures Consistent(net)
  {
    forall h, k: nat | 0 <= h < nhost
      ensures OutAt(net, h, k).Some? ==> SendMatched(net, h, k)
      ensures InAt(net, h, k).Some? ==> ReceiveMatched(net, h, k)
    {
      RoundPairs(net, root, nhost, h, k);
    }
  }

  /** The effect of mask `2^k` on host h in the round-by-round run `t`. */
  ghost predicate Stepped<T>(op: (T, T) -> T, t: seq<seq<T>>, root: nat, nhost: nat, k: nat, h: nat)
    requires k + 1 < |t| && |t[k]| == |t[k + 1]| == nhost && h < nhost && root < nhost
  {
    var self := ToRelative(h, root, nhost);
    t[k + 1][h] ==
    if Low(self, k) == 0 && !Bit(self, k) && self + Pow2(k) < nhost
    then op(t[k][ToAbsolute(self + Pow2(k), root, nhost)], t[k][h])
    else t[k][h]
  }

  ghost predicate IsFanIn<T>(op: (T, T) -> T, t: seq<seq<T>>, root: nat, nhost: nat)
    requires root < nhost
  {
    && |t| > 0
    && (forall k :: 0 <= k < |t| ==> |t[k]| == nhost)
    && (forall k, h {:trigger Stepped(op, t, root, nhost, k, h)} ::
          0 <= k < |t| - 1 && 0 <= h < nhost ==> Stepped(op, t, root, nhost, k, h))
  }

  lemma {:induction false} TraceIsFanIn<T>(net: Net<(), T, T>, op: (T, T) -> T, init: seq<T>, t: seq<seq<T>>,
                                           root: nat, nhost: nat)
    requires root < nhost && AreScripts(net.scripts, root, nhost) && net == ReduceNet(net.scripts, op)
    requires |init| == nhost && Consistent(net) && IsTrace(net, init, t)
    ensures IsFanIn(op, t, root, nhost)
  {
    forall k, h | 0 <= k < |t| - 1 && 0 <= h < nhost
      ensures Stepped(op, t, root, nhost, k, h)
    {
      TraceNext(net, init, t, k, h);
      RoundPairs(net, root, nhost, h, k);
    }
  }

  lemma {:induction false} FanInParts<T>(op: (T, T) -> T, t: seq<seq<T>>, root: nat, nhost: nat)
    requires root < nhost && IsFanIn(op, t, root, nhost)
    ensures |t| > 0 && forall k :: 0 <= k < |t| ==> |t[k]| == nhost
  {
  }

  lemma {:induction false} StepOf<T>(op: (T, T) -> T, t: seq<seq<T>>, root: nat, nhost: nat, k: nat, h: nat)
    requires root < nhost && IsFanIn(op, t, root, nhost) && k + 1 < |t| && h < nhost
    ensures |t[k]| == |t[k + 1]| == nhost && Stepped(op, t, root, nhost, k, h)
  {
  }

  /** Before mask `2^k`, each host whose low k bits are zero holds its block of 2^k hosts. */
  lemma {:induction false} BlockHeld<T>(op: (T, T) -> T, t: seq<seq<T>>, root: nat, nhost: nat, k: nat, self: nat)
    requires root < nhost && IsFanIn(op, t, root, nhost)
    requires k < |t| && self < nhost && Low(self, k) == 0
    ensures t[k][ToAbsolute(self, root, nhost)] == Doubling(op, Shifted(t[0], root), self, k)
    decreases k
  {
    hide Low, Bit, Shifted, IsFanIn;
    FanInParts(op, t, root, nhost);
    if k > 0 {
      UpperHalf(self, k - 1);
      StepOf(op, t, root, nhost, k - 1, ToAbsolute(self, root, nhost));
      assert Stepped(op, t, root, nhost, k - 1, ToAbsolute(self, root, nhost));
      BlockHeld(op, t, root, nhost, k - 1, self);
      if self + Pow2(k - 1) < nhost {
        BlockHeld(op, t, root, nhost, k - 1, self + Pow2(k - 1));
      }
    }
  }

  /** The scripts go on until the masks have passed the number of hosts. */
  lemma {:induction false} EnoughRounds<T>(net: Net<(), T, T>, root: nat, nhost: nat)
    requires root < nhost && AreScripts(net.scripts, root, nhost) && Consistent(net)
    ensures Pow2(MaxLength(net.scripts)) >= nhost
  {
    var top := MaxLength(net.scripts);
    if Pow2(top) < nhost {
      assert ToRelative(root, root, nhost) == 0;
      LowOfZero(top);
      RoundPairs(net, root, nhost, root, top);
    }
  }

  /** After enough masks the root has the fold of all hosts' contributions, each once. */
  lemma {:induction false} FanInAtRoot<T(!new)>(op: (T, T) -> T, t: seq<seq<T>>, root: nat, nhost: nat)
    requires root < nhost && IsFanIn(op, t, root, nhost) && Pow2(|t| - 1) >= nhost && Associative(op)
    ensures |t[0]| == |t[|t| - 1]| == nhost
    ensures t[|t| - 1][root] == Fold(op, Reverse(Shifted(t[0], root)))
    ensures Commutative(op) ==> t[|t| - 1][root] == Fold(op, t[0])
  {
    var top := |t| - 1;
    LowOfZero(top);
    BlockHeld(op, t, root, nhost, top, 0);
    DoublingIsFold(op, Shifted(t[0], root), top);
    if Commutative(op) {
      RelativeMultiset(t[0], root);
      FoldPermutation(op, Shifted(t[0], root), t[0]);
    }
  }

  /**
   Every run leaves at the root the fold of all hosts' contributions, each once, from the
   highest relative rank down; a commutative operation makes that the fold in host order.
   */
  lemma {:induction false} ReduceAtRoot<T(!new)>(net: Net<(), T, T>, op: (T, T) -> T, init: seq<T>, root: nat,
                                                 nhost: nat, sched: seq<nat>)
    requires root < nhost && AreScripts(net.scripts, root, nhost) && net == ReduceNet(net.scripts, op)
    requires Associative(op) && |init| == nhost
    ensures Consistent(net)
    ensures var c := Exec(net, Start(net, init), sched);
      if Done(net, c)
      then c.local[root] == Fold(op, Reverse(Shifted(init, root))) &&
           (Commutative(op) ==> c.local[root] == Fold(op, init))
      else exists p :: CanMove(net, c, p, true)
  {
    ReducePairs(net, root, nhost);
    var c := Exec(net, Start(net, init), sched);
    if Done(net, c) {
      EveryRunAgrees(net, init, sched);
      EnoughRounds(net, root, nhost);
      TraceIsFanIn(net, op, init, Trace(net, init), root, nhost);
      FanInAtRoot(op, Trace(net, init), root, nhost);
    } else {
      var p := NeverStuck(net, init, seq(nhost, i => 0), sched);
    }
  }

  lemma {:induction false} RelativeMultiset<T>(init: seq<T>, root: nat)
    requires root < |init|
    ensures multiset(Shifted(init, root)) == multiset(init)
  {
    assert Shifted(init, root) == init[root..] + init[..root];
    assert init == init[..root] + init[root..];
  }
}
