/** All hosts together running `ulm_scatter_interhost`. */
module ScatterRun {
  import opened Layout
  import opened Network
  import opened Buffers
  import opened Posted
  import opened NaryTree
  import opened TreeWalk
  import opened ScatterInterhost
  import opened Ranks

  /** Host h runs the script of its node; sizes are given by host. */
  ghost predicate RunsScatter<T>(net: Net<Segment, seq<T>, seq<T>>, sh: Shape, root: nat, sizes: seq<nat>) {
    && ValidShape(sh) && |sizes| == sh.n && root < sh.n
    && net == BufferNet<T>(net.scripts) && |net.scripts| == sh.n
    && forall h {:trigger ToRelative(h, root, sh.n)} :: 0 <= h < sh.n ==>
         net.scripts[h] == ScatterScript(sh, Shifted(sizes, root), root, ToRelative(h, root, sh.n))
  }

  lemma {:induction false} RunParts<T>(net: Net<Segment, seq<T>, seq<T>>, sh: Shape, root: nat, sizes: seq<nat>)
    requires RunsScatter(net, sh, root, sizes)
    ensures ValidShape(sh) && root < sh.n && |net.scripts| == |sizes| == sh.n
  {
  }

  lemma {:induction false} ScriptOf<T>(net: Net<Segment, seq<T>, seq<T>>, sh: Shape, root: nat, sizes: seq<nat>,
                                       h: nat, r: nat)
    requires RunsScatter(net, sh, root, sizes) && h < sh.n
    ensures |net.scripts[h]| == sh.n - 1
    ensures r + 1 < sh.n ==>
      var round := NodeRound(sh, Shifted(sizes, root), root, ToRelative(h, root, sh.n), r);
      OutAt(net, h, r) == round.out && InAt(net, h, r) == round.inc
    ensures r + 1 >= sh.n ==> OutAt(net, h, r).None? && InAt(net, h, r).None?
  {
    hide NodeRound, BufferNet;
    var v := ToRelative(h, root, sh.n);
    assert net.scripts[h] == ScatterScript(sh, Shifted(sizes, root), root, v);
  }

  lemma {:induction false} RoundsPair(sh: Shape, sizes: seq<nat>, root: nat, h: nat, r: nat)
    requires ValidShape(sh) && |sizes| == sh.n && root < sh.n && h < sh.n && r + 1 < sh.n
    ensures var n, round := sh.n, NodeRound(sh, sizes, root, ToRelative(h, root, sh.n), r);
      && (round.out.Some? ==>
            var q := round.out.value.peer;
            q < n && NodeRound(sh, sizes, root, ToRelative(q, root, n), r).inc.Some? &&
            NodeRound(sh, sizes, root, ToRelative(q, root, n), r).inc.value.peer == h)
      && (round.inc.Some? ==>
            var q := round.inc.value.peer;
            && q < n && NodeRound(sh, sizes, root, ToRelative(q, root, n), r).out.Some?
            && NodeRound(sh, sizes, root, ToRelative(q, root, n), r).out.value.peer == h)
  {
    hide Ahead, ScatterBytes, Parent, Bytes, Walk, Children;
    ParentOfChild(sh.order, r + 1);
    ModuloForms(h, root, sh.n);
  }

  lemma {:induction false} ScatterPairs<T>(net: Net<Segment, seq<T>, seq<T>>, sh: Shape, root: nat, sizes: seq<nat>)
    requires RunsScatter(net, sh, root, sizes)
    ensures Consistent(net)
  {
    hide NodeRound, BufferNet;
    forall p, r: nat | 0 <= p < sh.n
      ensures OutAt(net, p, r).Some? ==> SendMatched(net, p, r)
      ensures InAt(net, p, r).Some? ==> ReceiveMatched(net, p, r)
    {
      ScriptOf(net, sh, root, sizes, p, r);
      if r + 1 < sh.n {
        RoundsPair(sh, Shifted(sizes, root), root, p, r);
        if OutAt(net, p, r).Some? {
          ScriptOf(net, sh, root, sizes, OutAt(net, p, r).value.peer, r);
        }
        if InAt(net, p, r).Some? {
          ScriptOf(net, sh, root, sizes, InAt(net, p, r).value.peer, r);
        }
      }
    }
  }

  /** The data, by node, of the subtree under v in scatter order. */
  ghost function TreeData<T>(sh: Shape, data: seq<seq<T>>, v: nat): (d: seq<T>)
    requires ValidShape(sh) && |data| == sh.n && v < sh.n
    ensures |d| == ScatterBytes(sh, Sizes(data), v) <= Bytes(Sizes(data), Ascending(sh.n))
    ensures data[v] <= d
  {
    hide Children;
    WalkInRange(sh, v, false);
    FlatLength(data, Walk(sh, v, false));
    BytesOfSome(Sizes(data), Walk(sh, v, false), sh.n);
    StartsWithOwn(sh, data, v);
    Flat(data, Walk(sh, v, false))
  }

  lemma {:induction false} StartsWithOwn<T>(sh: Shape, data: seq<seq<T>>, v: nat)
    requires ValidShape(sh) && |data| == sh.n && v < sh.n && InRange(Walk(sh, v, false), sh.n)
    ensures data[v] <= Flat(data, Walk(sh, v, false))
  {
    var w := Walk(sh, v, false);
    assert w == [v] + w[1..];
    FlatConcat(data, [v], w[1..]);
    assert Flat(data, [v]) == data[v];
  }

  ghost predicate HoldsAt<T>(sh: Shape, data: seq<seq<T>>, buf: seq<T>, v: nat, r: nat)
    requires ValidShape(sh) && |data| == sh.n && v < sh.n
  {
    (v <= r ==> TreeData(sh, data, v) <= buf) && Bytes(Sizes(data), Ascending(sh.n)) <= |buf|
  }

  /** The block that p sends to a child is that child's data. */
  lemma {:induction false} BlockIs<T>(sh: Shape, data: seq<seq<T>>, p: nat, i: nat, buf: seq<T>)
    requires ValidShape(sh) && |data| == sh.n && p < sh.n && i < |Children(sh, p)| && TreeData(sh, data, p) <= buf
    ensures Children(sh, p)[i] < sh.n
    ensures var c := Children(sh, p)[i];
      Read(buf, Segment(Bytes(Sizes(data), Ahead(sh, p, i)), ScatterBytes(sh, Sizes(data), c))) == TreeData(sh, data, c)
  {
    hide Walk, Children, Ahead, Bytes, ScatterBytes, Read;
    AheadStep(sh, p, i);
    var c := Children(sh, p)[i];
    var a, b, w := Ahead(sh, p, i), Walk(sh, c, false), Walk(sh, p, false);
    WalkInRange(sh, c, false);
    WalkInRange(sh, p, false);
    FlatConcat(data, a, b);
    var rest := w[|a + b|..];
    assert w == (a + b) + rest;
    FlatConcat(data, a + b, rest);
    FlatLength(data, a);
    ReadInside(buf, Flat(data, a), Flat(data, b));
  }

  ghost predicate AllHold<T>(sh: Shape, root: nat, data: seq<seq<T>>, bufs: seq<seq<T>>, r: nat)
    requires ValidShape(sh) && |data| == sh.n && root < sh.n
  {
    |bufs| == sh.n &&
    forall h {:trigger HoldsAt(sh, data, bufs[h], ToRelative(h, root, sh.n), r)} :: 0 <= h < sh.n ==>
      HoldsAt(sh, data, bufs[h], ToRelative(h, root, sh.n), r)
  }

  lemma {:induction false} HeldBy<T>(sh: Shape, root: nat, data: seq<seq<T>>, bufs: seq<seq<T>>, r: nat, h: nat)
    requires ValidShape(sh) && |data| == sh.n && root < sh.n && AllHold(sh, root, data, bufs, r) && h < sh.n
    ensures HoldsAt(sh, data, bufs[h], ToRelative(h, root, sh.n), r)
  {
  }

  lemma {:induction false} ShiftedSizes<T>(data: seq<seq<T>>, root: nat)
    requires root < |data|
    ensures Shifted(Sizes(data), root) == Sizes(Shifted(data, root))
  {
  }

  lemma {:induction false} RoundHolds<T>(net: Net<Segment, seq<T>, seq<T>>, init: seq<seq<T>>, t: seq<seq<seq<T>>>,
                                         sh: Shape, root: nat, data: seq<seq<T>>, r: nat, h: nat)
    requires RunsScatter(net, sh, root, Sizes(data)) && |init| == sh.n && Consistent(net) && IsTrace(net, init, t)
    requires r + 1 < |t| && r + 1 < sh.n && AllHold(sh, root, Shifted(data, root), t[r], r) && h < sh.n
    ensures HoldsAt(sh, Shifted(data, root), t[r + 1][h], ToRelative(h, root, sh.n), r + 1)
    ensures InAt(net, h, r).Some? ==> AcceptsIn(net, t, h, r)
  {
    hide TreeData, ScatterBytes, Ahead, Parent, Read, Bytes, Children, Walk;
    var rel, v := Shifted(data, root), ToRelative(h, root, sh.n);
    ShiftedSizes(data, root);
    ScriptOf(net, sh, root, Sizes(data), h, r);
    TraceNext(net, init, t, r, h);
    ParentOfChild(sh.order, r + 1);
    assert HoldsAt(sh, rel, t[r][h], v, r);
    if v == r + 1 {
      var p := Parent(sh.order, v);
      var q := ToAbsolute(p, root, sh.n);
      ScriptOf(net, sh, root, Sizes(data), q, r);
      assert HoldsAt(sh, rel, t[r][q], p, r);
      BlockIs(sh, rel, p, KidIndex(sh, v), t[r][q]);
      WriteFront(t[r][h], TreeData(sh, rel, v));
    }
  }

  lemma {:induction false} TraceHolds<T>(net: Net<Segment, seq<T>, seq<T>>, init: seq<seq<T>>, t: seq<seq<seq<T>>>,
                                         sh: Shape, root: nat, data: seq<seq<T>>, r: nat)
    requires RunsScatter(net, sh, root, Sizes(data)) && |init| == sh.n && Consistent(net) && IsTrace(net, init, t)
    requires r < |t| && r < sh.n && AllHold(sh, root, Shifted(data, root), init, 0)
    ensures AllHold(sh, root, Shifted(data, root), t[r], r)
    decreases r
  {
    hide HoldsAt, IsTrace, BufferNet;
    if r == 0 {
      TraceStart(net, init, t);
    } else {
      TraceHolds(net, init, t, sh, root, data, r - 1);
      TraceShape(net, init, t, r);
      forall h | 0 <= h < sh.n
        ensures HoldsAt(sh, Shifted(data, root), t[r][h], ToRelative(h, root, sh.n), r)
      {
        RoundHolds(net, init, t, sh, root, data, r - 1, h);
      }
    }
  }

  lemma {:induction false} Lengths<T>(net: Net<Segment, seq<T>, seq<T>>, sh: Shape, root: nat, sizes: seq<nat>)
    requires RunsScatter(net, sh, root, sizes)
    ensures MaxLength(net.scripts) == sh.n - 1
  {
    hide BufferNet, ScatterScript;
    forall h | 0 <= h < sh.n
      ensures |net.scripts[h]| == sh.n - 1
    {
      ScriptOf(net, sh, root, sizes, h, 0);
    }
    ScriptLengths(net.scripts, sh.n - 1);
  }

  /** Every child expects exactly the number of bytes that its parent sends. */
  lemma {:induction false} LengthsAgree<T>(net: Net<Segment, seq<T>, seq<T>>, init: seq<seq<T>>, sh: Shape,
                                           root: nat, data: seq<seq<T>>)
    requires RunsScatter(net, sh, root, Sizes(data)) && |init| == sh.n && Consistent(net)
    requires AllHold(sh, root, Shifted(data, root), init, 0)
    ensures Accepting(net, init)
  {
    hide HoldsAt, IsTrace, BufferNet, AcceptsIn, ScatterScript;
    Lengths(net, sh, root, Sizes(data));
    var t := Trace(net, init);
    forall p, r: nat | 0 <= p < sh.n && r < MaxLength(net.scripts) && InAt(net, p, r).Some?
      ensures AcceptsIn(net, t, p, r)
    {
      TraceHolds(net, init, t, sh, root, data, r);
      RoundHolds(net, init, t, sh, root, data, r, p);
    }
    AcceptingFromTrace(net, init);
  }

  lemma {:induction false} FinalState<T>(net: Net<Segment, seq<T>, seq<T>>, init: seq<seq<T>>, sh: Shape, root: nat,
                                         data: seq<seq<T>>, h: nat)
    requires RunsScatter(net, sh, root, Sizes(data)) && |init| == sh.n && Consistent(net)
    requires AllHold(sh, root, Shifted(data, root), init, 0) && h < sh.n
    ensures |net.scripts| == sh.n && data[h] <= Trace(net, init)[MaxLength(net.scripts)][h]
  {
    hide BufferNet, ScatterScript, TreeData, RunsScatter, AllHold, Trace, IsTrace, Bytes;
    RunParts(net, sh, root, Sizes(data));
    Lengths(net, sh, root, Sizes(data));
    var t, v := Trace(net, init), ToRelative(h, root, sh.n);
    TraceHolds(net, init, t, sh, root, data, sh.n - 1);
    HeldBy(sh, root, Shifted(data, root), t[sh.n - 1], sh.n - 1, h);
    ModuloForms(h, root, sh.n);
  }

  lemma {:induction false} StartHolds<T>(sh: Shape, root: nat, data: seq<seq<T>>, init: seq<seq<T>>)
    requires ValidShape(sh) && |data| == |init| == sh.n && root < sh.n
    requires InRange(Walk(sh, 0, false), sh.n) && Flat(Shifted(data, root), Walk(sh, 0, false)) <= init[root]
    requires forall h :: 0 <= h < sh.n ==> Bytes(Sizes(Shifted(data, root)), Ascending(sh.n)) <= |init[h]|
    ensures AllHold(sh, root, Shifted(data, root), init, 0)
  {
    hide Bytes, Walk, Flat;
    forall h | 0 <= h < sh.n
      ensures HoldsAt(sh, Shifted(data, root), init[h], ToRelative(h, root, sh.n), 0)
    {
    }
  }

  /**
   If the root host's buffer begins with the data of all hosts in scatter order, then,
   whatever the interleaving of what the hosts post, when all of it is performed every host's
   buffer begins with its own data; until then some host can go on, even with synchronous sends.
   */
  lemma {:induction false} ScatterDelivers<T>(net: Net<Segment, seq<T>, seq<T>>, init: seq<seq<T>>, sh: Shape,
                                              root: nat, data: seq<seq<T>>, posted: seq<nat>)
    requires RunsScatter(net, sh, root, Sizes(data)) && |init| == sh.n
    requires InRange(Walk(sh, 0, false), sh.n) && Flat(Shifted(data, root), Walk(sh, 0, false)) <= init[root]
    requires forall h :: 0 <= h < sh.n ==> Bytes(Sizes(Shifted(data, root)), Ascending(sh.n)) <= |init[h]|
    ensures Consistent(net) && |net.scripts| == sh.n && Addressed(PostedBy(net.scripts))
    ensures var ops := PostedBy(net.scripts);
      var d := Perform(net, ops, Start(net, init), posted);
      if AllPerformed(ops, d)
      then forall h :: 0 <= h < sh.n ==> data[h] <= d.local[h]
      else exists p :: CanAct(net, ops, d, p, true)
  {
    hide BufferNet, Walk, Flat, ScatterScript, Bytes, RunsScatter, AllHold, Accepting, Consistent, Addressed,
      AllPerformed, CanAct, Perform, Trace;
    RunParts(net, sh, root, Sizes(data));
    ScatterPairs(net, sh, root, Sizes(data));
    StartHolds(sh, root, data, init);
    LengthsAgree(net, init, sh, root, data);
    assert Downhill(net, seq(sh.n, i => 0)) by { OneSided(net, sh, root, Sizes(data)); }
    PostedRunsAgree(net, init, seq(sh.n, i => 0), posted);
    forall h | 0 <= h < sh.n
      ensures data[h] <= Trace(net, init)[MaxLength(net.scripts)][h]
    {
      FinalState(net, init, sh, root, data, h);
    }
  }

  lemma {:induction false} OneSided<T>(net: Net<Segment, seq<T>, seq<T>>, sh: Shape, root: nat, sizes: seq<nat>)
    requires RunsScatter(net, sh, root, sizes)
    ensures !net.sendFirst
  {
  }
}
