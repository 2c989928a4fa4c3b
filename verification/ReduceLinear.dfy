/**
 `ulm_reduce_linear`, for operations that do not commute: the values are combined along the chain
 of the ranks, and the last rank sends the result to the root.
 */
module ReduceLinear {
  import opened Folds
  import opened Network
  import opened Buffers
  import opened Posted

  /** A message is combined into `r_buf`, or only received into the temporary buffer. */
  datatype How = Combine | Keep

  /** A rank's `r_buf` and its temporary buffer. */
  datatype Regs<T> = Regs(result: T, scratch: T)

  /** In round r rank r sends to rank r + 1; in the last round the last rank sends to the root. */
  function LinearRound(self: nat, r: nat, root: nat, nproc: nat): Round<How> {
    if r + 1 < nproc then
      if self == r then Round(Some(Half(r + 1, Combine)), None)
      else if self == r + 1 then Round(None, Some(Half(r, Combine)))
      else Idle()
    else if r + 1 == nproc && root != nproc - 1 then
      if self == nproc - 1 then Round(Some(Half(root, Keep)), None)
      else if self == root then Round(None, Some(Half(nproc - 1, Keep)))
      else Idle()
    else Idle()
  }

  function LinearScript(self: nat, root: nat, nproc: nat): (script: seq<Round<How>>)
    ensures |script| == nproc && forall r :: 0 <= r < nproc ==> script[r] == LinearRound(self, r, root, nproc)
  {
    seq(nproc, r requires 0 <= r => LinearRound(self, r, root, nproc))
  }

  ghost function LinearNet<T>(op: (T, T) -> T, root: nat, nproc: nat): (net: Net<How, Regs<T>, T>)
    ensures |net.scripts| == nproc
  {
    Net(seq(nproc, p requires 0 <= p => LinearScript(p, root, nproc)), false,
        (how: How, s: Regs<T>) => s.result,
        (how: How, s: Regs<T>, m: T) => if how == Combine then Regs(op(m, s.result), m) else Regs(s.result, m),
        (how: How, m: T) => true)
  }

  // ---------------------------------------------------------------- what a rank posts

  /** The rounds of a script that do something, up to round r. */
  ghost function Up(self: nat, root: nat, nproc: nat, r: nat): seq<Round<How>>
    requires r <= nproc
  {
    Active(LinearScript(self, root, nproc)[..r])
  }

  lemma {:induction false} UpStep(self: nat, root: nat, nproc: nat, r: nat)
    requires r < nproc
    ensures Up(self, root, nproc, 0) == []
    ensures var round := LinearRound(self, r, root, nproc);
      Up(self, root, nproc, r + 1) == Up(self, root, nproc, r) + if round == Idle() then [] else [round]
  {
    var script := LinearScript(self, root, nproc);
    assert script[..r + 1][..r] == script[..r];
  }

  /** Rounds in which the rank does nothing. */
  lemma {:induction false} UpIdle(self: nat, root: nat, nproc: nat, a: nat, b: nat)
    requires a <= b <= nproc && forall r :: a <= r < b ==> LinearRound(self, r, root, nproc) == Idle()
    ensures Up(self, root, nproc, b) == Up(self, root, nproc, a)
    decreases b
  {
    hide Up, LinearRound;
    if a < b {
      UpIdle(self, root, nproc, a, b - 1);
      UpStep(self, root, nproc, b - 1);
    }
  }

  /** What one rank posts. */
  method UlmReduceLinear(self: nat, root: nat, nproc: nat) returns (ops: seq<Round<How>>)
    requires self < nproc && root < nproc
    ensures ops == Active(LinearScript(self, root, nproc))
  {
    hide Up;
    ops := [];
    ghost var at := if self > 0 then self - 1 else 0;
    UpStep(self, root, nproc, 0);
    UpIdle(self, root, nproc, 0, at);
    if self > 0 {
      UpStep(self, root, nproc, self - 1);
      ops := ops + [Round(None, Some(Half(self - 1, Combine)))];
    }
    if self < nproc - 1 {
      UpStep(self, root, nproc, self);
      ops := ops + [Round(Some(Half(self + 1, Combine)), None)];
      UpIdle(self, root, nproc, self + 1, nproc - 1);
    }
    UpStep(self, root, nproc, nproc - 1);
    if root != nproc - 1 {
      if self == nproc - 1 {
        ops := ops + [Round(Some(Half(root, Keep)), None)];
      }
      if self == root {
        ops := ops + [Round(None, Some(Half(nproc - 1, Keep)))];
      }
    }
    AllUp(self, root, nproc);
  }

  lemma {:induction false} AllUp(self: nat, root: nat, nproc: nat)
    ensures Up(self, root, nproc, nproc) == Active(LinearScript(self, root, nproc))
  {
    assert LinearScript(self, root, nproc)[..nproc] == LinearScript(self, root, nproc);
  }

  // ---------------------------------------------------------------- every run

  lemma {:induction false} LinearPairs<T>(op: (T, T) -> T, root: nat, nproc: nat)
    requires root < nproc
    ensures Consistent(LinearNet(op, root, nproc))
  {
    var net := LinearNet(op, root, nproc);
    forall p, r: nat | 0 <= p < nproc && OutAt(net, p, r).Some?
      ensures SendMatched(net, p, r)
    {
    }
    forall p, r: nat | 0 <= p < nproc && InAt(net, p, r).Some?
      ensures ReceiveMatched(net, p, r)
    {
    }
  }

  /** Before round r the ranks up to r have the fold up to themselves. */
  ghost function Expected<T>(op: (T, T) -> T, x: seq<T>, r: nat, p: nat): T
    requires p < |x|
  {
    if p <= r then Fold(op, x[..p + 1]) else x[p]
  }

  ghost predicate Holds<T>(op: (T, T) -> T, x: seq<T>, root: nat, r: nat, p: nat, s: Regs<T>)
    requires p < |x|
  {
    && s.result == Expected(op, x, r, p)
    && (r == |x| && p == root && root != |x| - 1 ==> s.scratch == Fold(op, x))
  }

  lemma {:induction false} FoldGrows<T>(op: (T, T) -> T, x: seq<T>, p: nat)
    requires 0 < p < |x|
    ensures Fold(op, x[..p + 1]) == op(Fold(op, x[..p]), x[p])
  {
    assert x[..p + 1][..p] == x[..p];
  }

  lemma {:induction false} TraceHolds<T>(op: (T, T) -> T, x: seq<T>, init: seq<Regs<T>>, t: seq<seq<Regs<T>>>,
                                         root: nat, r: nat, p: nat)
    requires root < |x| == |init| && Consistent(LinearNet(op, root, |x|)) && IsTrace(LinearNet(op, root, |x|), init, t)
    requires (forall q :: 0 <= q < |x| ==> init[q].result == x[q]) && r < |t| && r <= |x| && p < |x|
    ensures |t[r]| == |x| && Holds(op, x, root, r, p, t[r][p])
    decreases r
  {
    hide Consistent, IsTrace, Fold;
    var net := LinearNet(op, root, |x|);
    TraceShape(net, init, t, r);
    if r == 0 {
      TraceStart(net, init, t);
      FirstFold(op, x);
    } else {
      TraceHolds(op, x, init, t, root, r - 1, p);
      TraceNext(net, init, t, r - 1, p);
      var q := if r < |x| then r - 1 else |x| - 1;
      TraceHolds(op, x, init, t, root, r - 1, q);
      if r < |x| {
        FoldGrows(op, x, r);
      }
      assert x[..|x|] == x;
    }
  }

  lemma {:induction false} FirstFold<T>(op: (T, T) -> T, x: seq<T>)
    requires x != []
    ensures Fold(op, x[..1]) == x[0]
  {
    assert x[..1] == [x[0]];
  }

  lemma {:induction false} AllAccept<T>(op: (T, T) -> T, init: seq<Regs<T>>, root: nat)
    requires root < |init| && Consistent(LinearNet(op, root, |init|))
    ensures Accepting(LinearNet(op, root, |init|), init) && MaxLength(LinearNet(op, root, |init|).scripts) == |init|
  {
    hide Consistent, Trace;
    var net := LinearNet(op, root, |init|);
    ScriptLengths(net.scripts, |init|);
  }

  /**
   In every run, when all that the ranks post is performed, every rank's `r_buf` has the fold of
   the ranks up to it, in rank order; a root that is not the last rank has the fold over all ranks
   in its temporary buffer.  Until then some rank can go on, even with synchronous sends.
   */
  lemma {:induction false} LinearDelivers<T>(op: (T, T) -> T, x: seq<T>, init: seq<Regs<T>>, root: nat,
                                             posted: seq<nat>)
    requires root < |x| == |init| && forall p :: 0 <= p < |x| ==> init[p].result == x[p]
    ensures var net := LinearNet(op, root, |x|); Consistent(net) && Addressed(PostedBy(net.scripts))
    ensures var net := LinearNet(op, root, |x|);
      var ops := PostedBy(net.scripts);
      var d := Perform(net, ops, Start(net, init), posted);
      if AllPerformed(ops, d)
      then && (forall p :: 0 <= p < |x| ==> d.local[p].result == Fold(op, x[..p + 1]))
           && (root != |x| - 1 ==> d.local[root].scratch == Fold(op, x))
      else exists p :: CanAct(net, ops, d, p, true)
  {
    hide Consistent, Addressed, AllPerformed, CanAct, Perform, Trace, Fold, Accepting;
    var net := LinearNet(op, root, |x|);
    LinearPairs(op, root, |x|);
    AllAccept(op, init, root);
    PostedRunsAgree(net, init, seq(|x|, i => 0), posted);
    forall p | 0 <= p < |x|
      ensures Holds(op, x, root, |x|, p, Trace(net, init)[|x|][p])
    {
      TraceHolds(op, x, init, Trace(net, init), root, |x|, p);
    }
  }

  // ---------------------------------------------------------------- exactly when the root gets the result

  /** In every run, whatever the ranks contribute, the root's `r_buf` ends with the fold over all ranks. */
  ghost predicate Works<T(!new)>(op: (T, T) -> T, root: nat, nproc: nat)
    requires root < nproc
  {
    forall x: seq<T>, init: seq<Regs<T>>, posted: seq<nat> {:trigger Delivered(op, x, init, root, posted)} ::
      |x| == |init| == nproc && (forall p :: 0 <= p < nproc ==> init[p].result == x[p]) ==>
        Delivered(op, x, init, root, posted)
  }

  ghost predicate Delivered<T>(op: (T, T) -> T, x: seq<T>, init: seq<Regs<T>>, root: nat, posted: seq<nat>)
    requires root < |x| == |init|
  {
    var net := LinearNet(op, root, |x|);
    var ops := PostedBy(net.scripts);
    && Addressed(ops)
    && var d := Perform(net, ops, Start(net, init), posted);
    AllPerformed(ops, d) ==> d.local[root].result == Fold(op, x)
  }

  /** Some run performs everything. */
  lemma {:induction false} SomeRun<T>(op: (T, T) -> T, x: seq<T>, init: seq<Regs<T>>, root: nat)
    returns (posted: seq<nat>)
    requires root < |x| == |init| && forall p :: 0 <= p < |x| ==> init[p].result == x[p]
    ensures var net := LinearNet(op, root, |x|);
      && Addressed(PostedBy(net.scripts))
      && AllPerformed(PostedBy(net.scripts), Perform(net, PostedBy(net.scripts), Start(net, init), posted))
  {
    hide Addressed, AllPerformed, CanAct, Perform, Fold, LinearNet;
    var net := LinearNet(op, root, |x|);
    var ops := PostedBy(net.scripts);
    LinearDelivers(op, x, init, root, []);
    forall schedule: seq<nat>
      ensures var d := Perform(net, ops, Start(net, init), schedule);
        AllPerformed(ops, d) || exists p :: CanAct(net, ops, d, p, true)
    {
      LinearDelivers(op, x, init, root, schedule);
    }
    posted := Finish(net, ops, init, []);
  }

  lemma {:induction false} LastRankWorks<T(!new)>(op: (T, T) -> T, nproc: nat)
    requires nproc > 0
    ensures Works(op, nproc - 1, nproc)
  {
    hide Addressed, AllPerformed, Perform, Fold, LinearNet;
    var root := nproc - 1;
    forall x: seq<T>, init: seq<Regs<T>>, posted: seq<nat> |
      |x| == |init| == nproc && (forall p :: 0 <= p < nproc ==> init[p].result == x[p])
      ensures Delivered(op, x, init, root, posted)
    {
      LinearDelivers(op, x, init, root, posted);
      assert x[..nproc] == x;
    }
  }

  /** If the root gets the result, it does not depend on the ranks above the root. */
  lemma {:induction false} PrefixIsAll<T(!new)>(op: (T, T) -> T, root: nat, x: seq<T>)
    requires root < |x| && Works(op, root, |x|)
    ensures Fold(op, x[..root + 1]) == Fold(op, x)
  {
    hide Addressed, AllPerformed, Perform, Fold, LinearNet;
    var init := seq(|x|, p requires 0 <= p < |x| => Regs(x[p], x[p]));
    var posted := SomeRun(op, x, init, root);
    LinearDelivers(op, x, init, root, posted);
    assert Delivered(op, x, init, root, posted);
  }

  type Lists = (seq<nat>, seq<nat>) -> seq<nat>

  /**
   The root gets the result for every associative operation on lists if and only if it is the
   last rank: the last receive of another root goes to the temporary buffer and is not copied.
   */
  lemma {:induction false} WorksIff(root: nat, nproc: nat)
    requires root < nproc
    ensures (forall op: Lists :: Associative(op) ==> Works(op, root, nproc)) <==> root == nproc - 1
  {
    hide Works, Fold;
    if root == nproc - 1 {
      forall op: Lists | Associative(op)
        ensures Works(op, root, nproc)
      {
        LastRankWorks(op, nproc);
      }
    } else {
      ConcatAssociates();
      ConcatFails(root, nproc);
    }
  }

  ghost function Concat(): Lists { (a: seq<nat>, b: seq<nat>) => a + b }

  lemma {:induction false} ConcatAssociates()
    ensures Associative(Concat())
  {
    forall a, b, c
      ensures Associates(Concat(), a, b, c)
    {
      assert (a + b) + c == a + (b + c);
    }
  }

  /** Putting lists together fails for every root but the last rank. */
  lemma {:induction false} ConcatFails(root: nat, nproc: nat)
    requires root + 1 < nproc
    ensures !Works(Concat(), root, nproc)
  {
    hide Works, Fold, Concat;
    var x := seq(nproc, p => [0]);
    ConcatLength(x[..root + 1]);
    ConcatLength(x);
    if Works(Concat(), root, nproc) {
      PrefixIsAll(Concat(), root, x);
      assert false;
    }
  }

  lemma {:induction false} ConcatLength(x: seq<seq<nat>>)
    requires x != [] && forall p :: 0 <= p < |x| ==> x[p] == [0]
    ensures |Fold(Concat(), x)| == |x|
    decreases |x|
  {
    if |x| > 1 {
      ConcatLength(x[..|x| - 1]);
    }
  }
}
