/** All hosts together running `ulm_gather_interhost`. */
module GatherRun {
  import opened Layout
  import opened Network
  import opened Buffers
  import opened Posted
  import opened NaryTree
  import opened TreeWalk
  import opened GatherOrder
  import opened GatherInterhost
  import opened Ranks

  /** Host h runs the script of its node; data is given by host. */
  ghost predicate RunsGather<T>(net: Net<Segment, seq<T>, seq<T>>, sh: Shape, root: nat, data: seq<seq<T>>) {
    && ValidShape(sh) && |data| == sh.n && root < sh.n
    && net == BufferNet<T>(net.scripts) && |net.scripts| == sh.n
    && forall h {:trigger ToRelative(h, root, sh.n)} :: 0 <= h < sh.n ==>
         net.scripts[h] == GatherScript(sh, Sizes(Shifted(data, root)), root, ToRelative(h, root, sh.n))
  }

  lemma {:induction false} ScriptOf<T>(net: Net<Segment, seq<T>, seq<T>>, sh: Shape, root: nat, data: seq<seq<T>>,
                                       h: nat, r: nat)
    requires RunsGather(net, sh, root, data) && h < sh.n
    ensures |net.scripts[h]| == |SendOrder(sh)|
    ensures r < |SendOrder(sh)| ==>
      var round := NodeRound(sh, Sizes(Shifted(data, root)), root, ToRelative(h, root, sh.n), r);
      OutAt(net, h, r) == round.out && InAt(net, h, r) == round.inc
    ensures r >= |SendOrder(sh)| ==> OutAt(net, h, r).None? && InAt(net, h, r).None?
  {
    hide NodeRound, BufferNet, SendOrder;
    var v := ToRelative(h, root, sh.n);
    assert net.scripts[h] == GatherScript(sh, Sizes(Shifted(data, root)), root, v);
  }

  /** The sender of a round and its parent are each other's only partners. */
  lemma {:induction false} RoundsPair(sh: Shape, sizes: seq<nat>, root: nat, h: nat, r: nat)
    requires ValidShape(sh) && |sizes| == sh.n && root < sh.n && h < sh.n && r < |SendOrder(sh)|
    ensures var n, round := sh.n, NodeRound(sh, sizes, root, ToRelative(h, root, sh.n), r);
      && (round.out.Some? ==>
            var q := round.out.value.peer;
            q < n && NodeRound(sh, sizes, root, ToRelative(q, root, n), r).inc.Some? &&
            NodeRound(sh, sizes, root, ToRelative(q, root, n), r).inc.value.peer == h)
      && (round.inc.Some? ==>
            var q := round.inc.value.peer;
            && q < n && NodeRound(sh, sizes, root, ToRelative(q, root, n), r).out.Some?
            && NodeRound(sh, sizes, root, ToRelative(q, root, n), r).out.value.peer == h)
  {
    hide Collected, TreeBytes, SendOrder, Parent, Bytes, Walk;
    CollectedStep(sh, ToRelative(h, root, sh.n), r);
    ModuloForms(h, root, sh.n);
  }

  lemma {:induction false} GatherPairs<T>(net: Net<Segment, seq<T>, seq<T>>, sh: Shape, root: nat, data: seq<seq<T>>)
    requires RunsGather(net, sh, root, data)
    ensures Consistent(net)
  {
    hide NodeRound, SendOrder, BufferNet;
    var sizes := Sizes(Shifted(data, root));
    forall p, r: nat | 0 <= p < sh.n
      ensures OutAt(net, p, r).Some? ==> SendMatched(net, p, r)
      ensures InAt(net, p, r).Some? ==> ReceiveMatched(net, p, r)
    {
      ScriptOf(net, sh, root, data, p, r);
      if r < |SendOrder(sh)| {
        RoundsPair(sh, sizes, root, p, r);
        if OutAt(net, p, r).Some? {
          ScriptOf(net, sh, root, data, OutAt(net, p, r).value.peer, r);
        }
        if InAt(net, p, r).Some? {
          ScriptOf(net, sh, root, data, InAt(net, p, r).value.peer, r);
        }
      }
    }
  }

  /** The data, by node, of the hosts that node v has collected before round r. */
  ghost function CollectedData<T>(sh: Shape, data: seq<seq<T>>, v: nat, r: nat): (d: seq<T>)
    requires ValidShape(sh) && |data| == sh.n && v < sh.n && r <= |SendOrder(sh)|
    ensures |d| == Bytes(Sizes(data), Collected(sh, v, r)) <= Bytes(Sizes(data), Ascending(sh.n))
  {
    hide Collected;
    FlatLength(data, Collected(sh, v, r));
    BytesOfSome(Sizes(data), Collected(sh, v, r), sh.n);
    Flat(data, Collected(sh, v, r))
  }

  ghost predicate HoldsAt<T>(sh: Shape, data: seq<seq<T>>, buf: seq<T>, v: nat, r: nat)
    requires ValidShape(sh) && |data| == sh.n && v < sh.n && r <= |SendOrder(sh)|
  {
    CollectedData(sh, data, v, r) <= buf && Bytes(Sizes(data), Ascending(sh.n)) <= |buf|
  }

  lemma {:induction false} DataStep<T>(sh: Shape, data: seq<seq<T>>, v: nat, r: nat)
    requires ValidShape(sh) && |data| == sh.n && v < sh.n && r < |SendOrder(sh)|
    ensures var c := SendOrder(sh)[r];
      && 0 < c < sh.n && TreeBytes(sh, Sizes(data), c) == |CollectedData(sh, data, c, r)|
      && CollectedData(sh, data, v, r + 1) ==
         if Parent(sh.order, c) == v then CollectedData(sh, data, v, r) + CollectedData(sh, data, c, r)
         else CollectedData(sh, data, v, r)
  {
    hide Collected, Walk, SendOrder, Parent;
    CollectedStep(sh, v, r);
    var c := SendOrder(sh)[r];
    FlatConcat(data, Collected(sh, v, r), Collected(sh, c, r));
  }

  lemma {:induction false} ReceiveHolds<T>(sh: Shape, data: seq<seq<T>>, v: nat, r: nat, buf: seq<T>, other: seq<T>)
    requires ValidShape(sh) && |data| == sh.n && v < sh.n && r < |SendOrder(sh)|
    requires 0 < SendOrder(sh)[r] < sh.n && Parent(sh.order, SendOrder(sh)[r]) == v
    requires HoldsAt(sh, data, buf, v, r) && HoldsAt(sh, data, other, SendOrder(sh)[r], r)
    ensures var len := TreeBytes(sh, Sizes(data), SendOrder(sh)[r]);
      && |Read(other, Segment(0, len))| == len
      && HoldsAt(sh, data, Write(buf, Bytes(Sizes(data), Collected(sh, v, r)), Read(other, Segment(0, len))), v, r + 1)
  {
    hide CollectedData, Collected, TreeBytes, SendOrder, Parent, Read, Write, Bytes;
    DataStep(sh, data, v, r);
    var mine, theirs := CollectedData(sh, data, v, r), CollectedData(sh, data, SendOrder(sh)[r], r);
    ReadFront(other, theirs);
    WriteAfter(buf, mine, theirs);
  }

  ghost predicate AllHold<T>(sh: Shape, root: nat, data: seq<seq<T>>, bufs: seq<seq<T>>, r: nat)
    requires ValidShape(sh) && |data| == sh.n && root < sh.n && r <= |SendOrder(sh)|
  {
    |bufs| == sh.n &&
    forall h {:trigger HoldsAt(sh, data, bufs[h], ToRelative(h, root, sh.n), r)} :: 0 <= h < sh.n ==>
      HoldsAt(sh, data, bufs[h], ToRelative(h, root, sh.n), r)
  }

  lemma {:induction false} RoundHolds<T>(net: Net<Segment, seq<T>, seq<T>>, init: seq<seq<T>>, t: seq<seq<seq<T>>>,
                                         sh: Shape, root: nat, data: seq<seq<T>>, r: nat, h: nat)
    requires RunsGather(net, sh, root, data) && |init| == sh.n && Consistent(net) && IsTrace(net, init, t)
    requires r + 1 < |t| && r < |SendOrder(sh)| && AllHold(sh, root, Shifted(data, root), t[r], r) && h < sh.n
    ensures HoldsAt(sh, Shifted(data, root), t[r + 1][h], ToRelative(h, root, sh.n), r + 1)
    ensures InAt(net, h, r).Some? ==> AcceptsIn(net, t, h, r)
  {
    hide CollectedData, Collected, TreeBytes, SendOrder, Parent, Read, Write, Bytes;
    var rel, v := Shifted(data, root), ToRelative(h, root, sh.n);
    ScriptOf(net, sh, root, data, h, r);
    TraceNext(net, init, t, r, h);
    CollectedStep(sh, v, r);
    DataStep(sh, rel, v, r);
    assert HoldsAt(sh, rel, t[r][h], v, r);
    var c := SendOrder(sh)[r];
    if c != v && Parent(sh.order, c) == v {
      var q := ToAbsolute(c, root, sh.n);
      ScriptOf(net, sh, root, data, q, r);
      assert HoldsAt(sh, rel, t[r][q], c, r);
      ReceiveHolds(sh, rel, v, r, t[r][h], t[r][q]);
    }
  }

  lemma {:induction false} StartHolds<T>(sh: Shape, root: nat, data: seq<seq<T>>, init: seq<seq<T>>)
    requires ValidShape(sh) && |data| == |init| == sh.n && root < sh.n
    requires forall h :: 0 <= h < sh.n ==> data[h] <= init[h]
    requires forall h :: 0 <= h < sh.n ==> Bytes(Sizes(Shifted(data, root)), Ascending(sh.n)) <= |init[h]|
    ensures AllHold(sh, root, Shifted(data, root), init, 0)
  {
    hide Bytes;
    var rel := Shifted(data, root);
    forall h | 0 <= h < sh.n
      ensures HoldsAt(sh, rel, init[h], ToRelative(h, root, sh.n), 0)
    {
      var v := ToRelative(h, root, sh.n);
      CollectedEnds(sh, v);
      ModuloForms(h, root, sh.n);
      assert Flat(rel, [v]) == rel[v];
    }
  }

  lemma {:induction false} TraceHolds<T>(net: Net<Segment, seq<T>, seq<T>>, init: seq<seq<T>>, t: seq<seq<seq<T>>>,
                                         sh: Shape, root: nat, data: seq<seq<T>>, r: nat)
    requires RunsGather(net, sh, root, data) && |init| == sh.n && Consistent(net) && IsTrace(net, init, t)
    requires r < |t| && r <= |SendOrder(sh)| && AllHold(sh, root, Shifted(data, root), init, 0)
    ensures AllHold(sh, root, Shifted(data, root), t[r], r)
    decreases r
  {
    hide HoldsAt, IsTrace, BufferNet, SendOrder;
    if r == 0 {
      TraceStart(net, init, t);
    } else {
      TraceHolds(net, init, t, sh, root, data, r - 1);
      TraceShape(net, init, t, r);
      forall h | 0 <= h < sh.n
        ensures HoldsAt(sh, Shifted(data, root), t[r][h], ToRelative(h, root, sh.n), r)
      {
        RoundHolds(net, init, t, sh, root, data, r - 1, h);
      }
    }
  }

  lemma {:induction false} Lengths<T>(net: Net<Segment, seq<T>, seq<T>>, sh: Shape, root: nat, data: seq<seq<T>>)
    requires RunsGather(net, sh, root, data)
    ensures MaxLength(net.scripts) == |SendOrder(sh)|
  {
    hide BufferNet, SendOrder, GatherScript;
    forall h | 0 <= h < sh.n
      ensures |net.scripts[h]| == |SendOrder(sh)|
    {
      ScriptOf(net, sh, root, data, h, 0);
    }
    ScriptLengths(net.scripts, |SendOrder(sh)|);
  }

  /** Every receive is posted for exactly the number of bytes that the child sends. */
  lemma {:induction false} LengthsAgree<T>(net: Net<Segment, seq<T>, seq<T>>, init: seq<seq<T>>, sh: Shape,
                                           root: nat, data: seq<seq<T>>)
    requires RunsGather(net, sh, root, data) && |init| == sh.n && Consistent(net)
    requires AllHold(sh, root, Shifted(data, root), init, 0)
    ensures Accepting(net, init)
  {
    hide HoldsAt, IsTrace, BufferNet, AcceptsIn, SendOrder, GatherScript;
    Lengths(net, sh, root, data);
    var t := Trace(net, init);
    forall p, r: nat | 0 <= p < sh.n && r < MaxLength(net.scripts) && InAt(net, p, r).Some?
      ensures AcceptsIn(net, t, p, r)
    {
      TraceHolds(net, init, t, sh, root, data, r);
      RoundHolds(net, init, t, sh, root, data, r, p);
    }
    AcceptingFromTrace(net, init);
  }

  lemma {:induction false} FinalData<T>(sh: Shape, data: seq<seq<T>>, v: nat)
    requires ValidShape(sh) && |data| == sh.n && v < sh.n
    ensures InRange(Walk(sh, v, true), sh.n)
    ensures CollectedData(sh, data, v, |SendOrder(sh)|) == Flat(data, Walk(sh, v, true))
  {
    hide Collected, Walk, SendOrder;
    CollectedEnds(sh, v);
    WalkInRange(sh, v, true);
  }

  lemma {:induction false} FinalState<T>(net: Net<Segment, seq<T>, seq<T>>, init: seq<seq<T>>, sh: Shape, root: nat,
                                         data: seq<seq<T>>, v: nat)
    requires RunsGather(net, sh, root, data) && |init| == sh.n && Consistent(net)
    requires AllHold(sh, root, Shifted(data, root), init, 0) && v < sh.n
    ensures InRange(Walk(sh, v, true), sh.n)
    ensures Flat(Shifted(data, root), Walk(sh, v, true)) <=
      Trace(net, init)[MaxLength(net.scripts)][ToAbsolute(v, root, sh.n)]
  {
    hide Walk, Flat, BufferNet, SendOrder, GatherScript, CollectedData;
    FinalData(sh, Shifted(data, root), v);
    Lengths(net, sh, root, data);
    var t, end, h := Trace(net, init), |SendOrder(sh)|, ToAbsolute(v, root, sh.n);
    TraceHolds(net, init, t, sh, root, data, end);
    assert HoldsAt(sh, Shifted(data, root), t[end][h], ToRelative(h, root, sh.n), end);
  }

  /**
   Whatever the interleaving of what the hosts post, when all of it is performed the root
   host's buffer begins with the data of all hosts, each once, in gather order; until then some
   host can go on, even with synchronous sends.
   */
  lemma {:induction false} GatherDelivers<T>(net: Net<Segment, seq<T>, seq<T>>, init: seq<seq<T>>, sh: Shape, root: nat,
                                             data: seq<seq<T>>, posted: seq<nat>)
    requires RunsGather(net, sh, root, data) && |init| == sh.n
    requires forall h :: 0 <= h < sh.n ==> data[h] <= init[h]
    requires forall h :: 0 <= h < sh.n ==> Bytes(Sizes(Shifted(data, root)), Ascending(sh.n)) <= |init[h]|
    ensures Consistent(net) && IsPermutation(Walk(sh, 0, true), sh.n) && Addressed(PostedBy(net.scripts))
    ensures var ops := PostedBy(net.scripts);
      var d := Perform(net, ops, Start(net, init), posted);
      if AllPerformed(ops, d)
      then Flat(Shifted(data, root), Walk(sh, 0, true)) <= d.local[root]
      else exists p :: CanAct(net, ops, d, p, true)
  {
    hide Walk, Flat, IsPermutation, GatherScript, Bytes, AllHold, Accepting, Consistent, Addressed, AllPerformed,
      CanAct, Perform, Trace;
    GatherPairs(net, sh, root, data);
    StartHolds(sh, root, data, init);
    RootWalkIsPermutation(sh, true);
    FinalState(net, init, sh, root, data, 0);
    LengthsAgree(net, init, sh, root, data);
    PostedRunsAgree(net, init, seq(sh.n, i => 0), posted);
  }
}
