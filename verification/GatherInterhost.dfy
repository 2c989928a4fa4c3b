/** `ulm_gather_interhost`: what every host sends and receives, and where. */
module GatherInterhost {
  import opened Layout
  import opened Network
  import opened Buffers
  import opened NaryTree
  import opened TreeWalk
  import opened GatherOrder
  import opened CollTree
  import opened Ranks

  /** The bytes of a whole subtree. */
  ghost function TreeBytes(sh: Shape, sizes: seq<nat>, v: nat): nat
    requires ValidShape(sh) && |sizes| == sh.n && v < sh.n
  {
    WalkInRange(sh, v, true);
    Bytes(sizes, Walk(sh, v, true))
  }

  lemma {:induction false} GotInRange(sh: Shape, v: nat, r: nat)
    requires ValidShape(sh) && v < sh.n && r <= |SendOrder(sh)|
    ensures AllNodes(sh, SendOrder(sh)) && AllNodes(sh, SendOrder(sh)[..r])
    ensures Got(sh, v, SendOrder(sh)[..r]) <= Walk(sh, v, true)
    ensures InRange(Got(sh, v, SendOrder(sh)[..r]), sh.n) && NoDuplicates(Got(sh, v, SendOrder(sh)[..r]))
  {
    hide Got, Walk, SendOrder;
    GotInTheEnd(sh, v);
    GotMonotone(sh, v, SendOrder(sh), r);
    WalkInRange(sh, v, true);
  }

  /** The hosts whose data node v has before round r. */
  ghost function Collected(sh: Shape, v: nat, r: nat): (c: seq<nat>)
    requires ValidShape(sh) && v < sh.n && r <= |SendOrder(sh)|
    ensures InRange(c, sh.n) && NoDuplicates(c) && c <= Walk(sh, v, true)
  {
    GotInRange(sh, v, r);
    Got(sh, v, SendOrder(sh)[..r])
  }

  /** In every round one node sends all it has to its parent, which appends it. */
  lemma {:induction false} CollectedStep(sh: Shape, v: nat, r: nat)
    requires ValidShape(sh) && v < sh.n && r < |SendOrder(sh)|
    ensures var c := SendOrder(sh)[r];
      && 0 < c < sh.n && Parent(sh.order, c) < c && Collected(sh, c, r) == Walk(sh, c, true)
      && Collected(sh, v, r + 1) ==
         if Parent(sh.order, c) == v then Collected(sh, v, r) + Walk(sh, c, true) else Collected(sh, v, r)
  {
    hide Got, Walk, SendOrder, SentBefore, Parent;
    RoundSender(sh, r);
    var order := SendOrder(sh);
    ParentOfChild(sh.order, order[r]);
    GotWhenSending(sh, order[r]);
    GotInRange(sh, v, r);
    assert order[..r + 1] == order[..r] + [order[r]];
    GotStep(sh, v, order[..r], order[r]);
  }

  lemma {:induction false} CollectedEnds(sh: Shape, v: nat)
    requires ValidShape(sh) && v < sh.n
    ensures Collected(sh, v, 0) == [v] && Collected(sh, v, |SendOrder(sh)|) == Walk(sh, v, true)
  {
    GotInTheEnd(sh, v);
    assert SendOrder(sh)[..|SendOrder(sh)|] == SendOrder(sh);
  }

  /** What node v does while node c, whose turn is in round r, sends to its parent; sizes are by node. */
  ghost function NodeRound(sh: Shape, sizes: seq<nat>, root: nat, v: nat, r: nat): Round<Segment>
    requires ValidShape(sh) && |sizes| == sh.n && root < sh.n && v < sh.n && r < |SendOrder(sh)|
  {
    CollectedStep(sh, v, r);
    var c := SendOrder(sh)[r];
    var p := Parent(sh.order, c);
    if c == v then Round(Some(Half(ToAbsolute(p, root, sh.n), Segment(0, TreeBytes(sh, sizes, v)))), None)
    else if p == v then
      var seg := Segment(Bytes(sizes, Collected(sh, v, r)), TreeBytes(sh, sizes, c));
      Round(None, Some(Half(ToAbsolute(c, root, sh.n), seg)))
    else Idle()
  }

  ghost function GatherScript(sh: Shape, sizes: seq<nat>, root: nat, v: nat): (s: seq<Round<Segment>>)
    requires ValidShape(sh) && |sizes| == sh.n && root < sh.n && v < sh.n
    ensures |s| == |SendOrder(sh)|
    ensures forall r :: 0 <= r < |s| ==> s[r] == NodeRound(sh, sizes, root, v, r)
  {
    seq(|SendOrder(sh)|, r requires 0 <= r < |SendOrder(sh)| => NodeRound(sh, sizes, root, v, r))
  }

  // ---------------------------------------------------------------- what a host really posts

  /** What node v has when its child c sends. */
  ghost function GotBefore(sh: Shape, v: nat, c: nat): (g: seq<nat>)
    requires ValidShape(sh) && v < sh.n && 0 < c < sh.n
    ensures AllNodes(sh, SentBefore(sh, c)) && g == Got(sh, v, SentBefore(sh, c)) && InRange(g, sh.n)
  {
    BeforeInRange(sh, v, c);
    Got(sh, v, SentBefore(sh, c))
  }

  lemma {:induction false} BeforeInRange(sh: Shape, v: nat, c: nat)
    requires ValidShape(sh) && v < sh.n && 0 < c < sh.n
    ensures AllNodes(sh, SentBefore(sh, c)) && InRange(Got(sh, v, SentBefore(sh, c)), sh.n)
  {
    hide Got, SentBefore, Walk;
    LevelsFit(sh, c);
    EveryoneSends(sh, Depth(sh) - 1, c);
    var r :| 0 <= r < |SendOrder(sh)| && SendOrder(sh)[r] == c;
    RoundSender(sh, r);
    GotInRange(sh, v, r);
  }

  /** Where the data of child c goes: behind what v has collected by then. */
  ghost function RecvOffset(sh: Shape, sizes: seq<nat>, v: nat, c: nat): nat
    requires ValidShape(sh) && |sizes| == sh.n && v < sh.n && 0 < c < sh.n
  {
    Bytes(sizes, GotBefore(sh, v, c))
  }

  ghost function RecvOp(sh: Shape, sizes: seq<nat>, root: nat, v: nat, c: nat): Round<Segment>
    requires ValidShape(sh) && |sizes| == sh.n && root < sh.n && v < sh.n && 0 < c < sh.n
  {
    Round(None, Some(Half(ToAbsolute(c, root, sh.n), Segment(RecvOffset(sh, sizes, v, c), TreeBytes(sh, sizes, c)))))
  }

  ghost function SendOp(sh: Shape, sizes: seq<nat>, root: nat, v: nat): Round<Segment>
    requires ValidShape(sh) && |sizes| == sh.n && root < sh.n && 0 < v < sh.n
  {
    ParentOfChild(sh.order, v);
    Round(Some(Half(ToAbsolute(Parent(sh.order, v), root, sh.n), Segment(0, TreeBytes(sh, sizes, v)))), None)
  }

  ghost function RecvOps(sh: Shape, sizes: seq<nat>, root: nat, v: nat, kids: seq<nat>): (ops: seq<Round<Segment>>)
    requires ValidShape(sh) && |sizes| == sh.n && root < sh.n && v < sh.n && AllNodes(sh, kids)
    ensures |ops| == |kids| && forall i :: 0 <= i < |kids| ==> ops[i] == RecvOp(sh, sizes, root, v, kids[i])
  {
    seq(|kids|, i requires 0 <= i < |kids| => RecvOp(sh, sizes, root, v, kids[i]))
  }

  lemma {:induction false} NodeRoundIs(sh: Shape, sizes: seq<nat>, root: nat, v: nat, r: nat)
    requires ValidShape(sh) && |sizes| == sh.n && root < sh.n && v < sh.n && r < |SendOrder(sh)|
    ensures var c, round := SendOrder(sh)[r], NodeRound(sh, sizes, root, v, r);
      && 0 < c < sh.n
      && (c == v ==> round == SendOp(sh, sizes, root, v))
      && (c != v && Parent(sh.order, c) == v ==> round == RecvOp(sh, sizes, root, v, c))
      && (c != v && Parent(sh.order, c) != v ==> round == Idle())
  {
    hide Got, SendOrder, SentBefore, Parent, TreeBytes, Bytes;
    RoundSender(sh, r);
  }

  lemma {:induction false} HeardAreNodes(sh: Shape, v: nat, sent: seq<nat>)
    requires ValidShape(sh) && AllNodes(sh, sent)
    ensures AllNodes(sh, Heard(sh, v, sent))
    decreases |sent|
  {
    if sent != [] {
      HeardAreNodes(sh, v, sent[..|sent| - 1]);
    }
  }

  /** The first r rounds of v's script: a receive for every child that has sent, then the send. */
  ghost function Posted(sh: Shape, sizes: seq<nat>, root: nat, v: nat, sent: seq<nat>): seq<Round<Segment>>
    requires ValidShape(sh) && |sizes| == sh.n && root < sh.n && v < sh.n && AllNodes(sh, sent)
  {
    HeardAreNodes(sh, v, sent);
    RecvOps(sh, sizes, root, v, Heard(sh, v, sent)) + (if v in sent then [SendOp(sh, sizes, root, v)] else [])
  }

  lemma {:induction false} PostedStep(sh: Shape, sizes: seq<nat>, root: nat, v: nat, c: nat)
    requires ValidShape(sh) && |sizes| == sh.n && root < sh.n && v < sh.n && 0 < c < sh.n
    requires AllNodes(sh, SentBefore(sh, c))
    ensures var sent := SentBefore(sh, c);
      Posted(sh, sizes, root, v, sent + [c]) == Posted(sh, sizes, root, v, sent) +
        if c == v then [SendOp(sh, sizes, root, v)]
        else if Parent(sh.order, c) == v then [RecvOp(sh, sizes, root, v, c)] else []
  {
    hide Heard, SentBefore, Parent, SendOp, RecvOp;
    var sent := SentBefore(sh, c);
    HeardStep(sh, v, sent, c);
    HeardAreNodes(sh, v, sent);
    ParentOfChild(sh.order, c);
    if v in sent {
      NotYetSent(sh, c, v);
    }
    assert v in sent + [c] <==> v in sent || v == c;
  }

  lemma {:induction false} ActiveIsPosted(sh: Shape, sizes: seq<nat>, root: nat, v: nat, r: nat)
    requires ValidShape(sh) && |sizes| == sh.n && root < sh.n && v < sh.n && r <= |SendOrder(sh)|
    ensures AllNodes(sh, SendOrder(sh)[..r])
    ensures Active(GatherScript(sh, sizes, root, v)[..r]) == Posted(sh, sizes, root, v, SendOrder(sh)[..r])
    decreases r
  {
    hide Posted, SendOrder, SentBefore, Parent, SendOp, RecvOp, NodeRound, Active, Got;
    GotInRange(sh, v, r);
    var script, order := GatherScript(sh, sizes, root, v), SendOrder(sh);
    if r == 0 {
      NothingPosted(sh, sizes, root, v);
      NothingActive(script);
    } else {
      ActiveIsPosted(sh, sizes, root, v, r - 1);
      RoundSender(sh, r - 1);
      NodeRoundIs(sh, sizes, root, v, r - 1);
      PostedStep(sh, sizes, root, v, order[r - 1]);
      OpShapes(sh, sizes, root, v, order[r - 1]);
      ActiveStep(script, r - 1);
      assert order[..r] == order[..r - 1] + [order[r - 1]];
    }
  }

  lemma {:induction false} NothingActive(script: seq<Round<Segment>>)
    ensures Active(script[..0]) == []
  {
  }

  lemma {:induction false} NothingPosted(sh: Shape, sizes: seq<nat>, root: nat, v: nat)
    requires ValidShape(sh) && |sizes| == sh.n && root < sh.n && v < sh.n
    ensures Posted(sh, sizes, root, v, []) == []
  {
  }

  lemma {:induction false} OpShapes(sh: Shape, sizes: seq<nat>, root: nat, v: nat, c: nat)
    requires ValidShape(sh) && |sizes| == sh.n && root < sh.n && v < sh.n && 0 < c < sh.n
    ensures RecvOp(sh, sizes, root, v, c).inc.Some? && (v > 0 ==> SendOp(sh, sizes, root, v).out.Some?)
  {
  }

  // ---------------------------------------------------------------- the receive pointer

  /** What node v has once its children of `level` below c have sent too. */
  ghost function SoFar(sh: Shape, v: nat, level: nat, c: nat): seq<nat>
    requires ValidShape(sh) && v < sh.n && LevelOf(sh.order, v) < level <= Depth(sh) - 1
    requires AllNodes(sh, Before(sh, level)) && ChildLo(sh, v, level) <= c <= ChildHi(sh, v, level)
    requires ChildLo(sh, v, level) < ChildHi(sh, v, level) ==> ChildHi(sh, v, level) <= sh.n
  {
    Got(sh, v, Before(sh, level)) + WalkSpan(sh, ChildLo(sh, v, level), c, true)
  }

  lemma {:induction false} SpanPrefix(sh: Shape, a: nat, b: nat, c: nat)
    requires ValidShape(sh) && a <= b <= c && (a < c ==> c <= sh.n)
    ensures WalkSpan(sh, a, b, true) <= WalkSpan(sh, a, c, true)
    decreases c - a
  {
    hide Walk;
    if a < b {
      SpanPrefix(sh, a + 1, b, c);
    }
  }

  lemma {:induction false} SoFarInRange(sh: Shape, v: nat, level: nat, c: nat)
    requires ValidShape(sh) && v < sh.n && LevelOf(sh.order, v) < level <= Depth(sh) - 1
    requires ChildLo(sh, v, level) <= c <= ChildHi(sh, v, level)
    ensures AllNodes(sh, Before(sh, level))
    ensures ChildLo(sh, v, level) < ChildHi(sh, v, level) ==> ChildHi(sh, v, level) <= sh.n
    ensures SoFar(sh, v, level, c) <= Walk(sh, v, true) && InRange(SoFar(sh, v, level, c), sh.n)
  {
    hide Walk, WalkSpan, WalkLevels, Got, Before, ChildLo, ChildHi, LevelOf;
    GotAtLevel(sh, v, level);
    LevelsUnfold(sh, v, level);
    SpanPrefix(sh, ChildLo(sh, v, level), c, ChildHi(sh, v, level));
    WalkInRange(sh, v, true);
  }

  lemma {:induction false} OffsetIs(sh: Shape, v: nat, level: nat, c: nat)
    requires ValidShape(sh) && v < sh.n && LevelOf(sh.order, v) < level <= Depth(sh) - 1
    requires ChildLo(sh, v, level) <= c < ChildHi(sh, v, level) <= sh.n && AllNodes(sh, Before(sh, level))
    ensures 0 < c < sh.n && GotBefore(sh, v, c) == SoFar(sh, v, level, c)
  {
    hide Walk, WalkSpan, Got, Before, ChildLo, ChildHi, LevelOf, LevelStart, Parent;
    InSpan(sh, v, level, c);
    LevelsFit(sh, c);
    LevelNodes(sh, level, c);
    AlongLevel(sh, level, Before(sh, level), c);
    GotGrows(sh, v, level, Before(sh, level), c);
  }

  /** The pointer moves on by the bytes of the child's subtree. */
  lemma {:induction false} PointerStep(sh: Shape, sizes: seq<nat>, v: nat, level: nat, c: nat)
    requires ValidShape(sh) && |sizes| == sh.n && v < sh.n && LevelOf(sh.order, v) < level <= Depth(sh) - 1
    requires ChildLo(sh, v, level) <= c < ChildHi(sh, v, level)
    ensures ChildHi(sh, v, level) <= sh.n && AllNodes(sh, Before(sh, level)) && 0 < c < sh.n
    ensures InRange(SoFar(sh, v, level, c), sh.n) && InRange(SoFar(sh, v, level, c + 1), sh.n)
    ensures RecvOffset(sh, sizes, v, c) == Bytes(sizes, SoFar(sh, v, level, c))
    ensures Bytes(sizes, SoFar(sh, v, level, c + 1)) == Bytes(sizes, SoFar(sh, v, level, c)) + TreeBytes(sh, sizes, c)
  {
    hide Walk, WalkSpan, Got, Before, ChildLo, ChildHi, LevelOf, LevelStart, Parent, Bytes;
    SoFarInRange(sh, v, level, c);
    SoFarInRange(sh, v, level, c + 1);
    OffsetIs(sh, v, level, c);
    SpanGrows(sh, ChildLo(sh, v, level), ChildHi(sh, v, level), c);
    WalkInRange(sh, c, true);
    BytesConcat(sizes, SoFar(sh, v, level, c), Walk(sh, c, true));
    assert SoFar(sh, v, level, c + 1) == SoFar(sh, v, level, c) + Walk(sh, c, true);
  }

  lemma {:induction false} SoFarEnds(sh: Shape, v: nat, level: nat)
    requires ValidShape(sh) && v < sh.n && LevelOf(sh.order, v) < level <= Depth(sh) - 1
    ensures AllNodes(sh, Before(sh, level)) && AllNodes(sh, Before(sh, level - 1))
    ensures ChildLo(sh, v, level) < ChildHi(sh, v, level) ==> ChildHi(sh, v, level) <= sh.n
    ensures SoFar(sh, v, level, ChildLo(sh, v, level)) == Got(sh, v, Before(sh, level))
    ensures SoFar(sh, v, level, ChildHi(sh, v, level)) == Got(sh, v, Before(sh, level - 1))
  {
    hide Walk, WalkSpan, WalkLevels, Got, Before, ChildLo, ChildHi, LevelOf;
    GotAtLevel(sh, v, level);
    LevelCollected(sh, v, level);
    EmptySpan(sh, ChildLo(sh, v, level), true);
  }

  // ---------------------------------------------------------------- ulm_gather_interhost

  /** The sum over the hosts of a subtree, from their shifted indices. */
  method SubtreeBytes(nodes: seq<nat>, rootHost: nat, nNodes: nat, dataToSendNow: seq<nat>) returns (bytes: nat)
    requires |dataToSendNow| == nNodes && rootHost < nNodes && InRange(nodes, nNodes)
    ensures bytes == Bytes(Shifted(dataToSendNow, rootHost), nodes)
  {
    hide Shifted;
    ghost var sizes := Shifted(dataToSendNow, rootHost);
    bytes := 0;
    for h := 0 to |nodes|
      invariant bytes == Bytes(sizes, nodes[..h])
    {
      var hst := nodes[h] + rootHost;
      if hst >= nNodes {
        hst := hst - nNodes;
      }
      bytes := bytes + dataToSendNow[hst];
      BytesStep(sizes, nodes, h);
    }
    assert nodes[..|nodes|] == nodes;
  }

  /** The request arrays hold the receives from nodes lo, lo + 1, and so on. */
  ghost predicate Requested(sh: Shape, sizes: seq<nat>, root: nat, v: nat, lo: nat, count: nat,
                            sourceHost: array<nat>, size: array<nat>, buffPtr: array<nat>)
    requires ValidShape(sh) && |sizes| == sh.n && root < sh.n && v < sh.n && 0 < lo && lo + count <= sh.n
    requires count <= sourceHost.Length && count <= size.Length && count <= buffPtr.Length
    reads sourceHost, size, buffPtr
  {
    forall i :: 0 <= i < count ==>
      Round(None, Some(Half(sourceHost[i], Segment(buffPtr[i], size[i])))) == RecvOp(sh, sizes, root, v, lo + i)
  }

  /** What `ulm_gather_interhost` is given about the communicator. */
  ghost predicate GatherSetup(sh: Shape, tree: Tree, gatherDataNodeList: seq<seq<nat>>, rootHost: nat,
                              dataToSendNow: seq<nat>) {
    && ValidShape(sh) && IsTree(sh, tree) && rootHost < sh.n && |dataToSendNow| == sh.n
    && |gatherDataNodeList| == sh.n
    && forall v :: 0 <= v < sh.n ==> gatherDataNodeList[v] == Walk(sh, v, true)
  }

  /** The bytes that node v has when nodes of `level` are about to send. */
  ghost function PointerAt(sh: Shape, sizes: seq<nat>, v: nat, level: nat): nat
    requires ValidShape(sh) && |sizes| == sh.n && v < sh.n && LevelOf(sh.order, v) <= level <= Depth(sh) - 1
  {
    LevelInRange(sh, v, level);
    Bytes(sizes, Got(sh, v, Before(sh, level)))
  }

  lemma {:induction false} LevelInRange(sh: Shape, v: nat, level: nat)
    requires ValidShape(sh) && v < sh.n && LevelOf(sh.order, v) <= level <= Depth(sh) - 1
    ensures AllNodes(sh, Before(sh, level)) && InRange(Got(sh, v, Before(sh, level)), sh.n)
  {
    hide Walk, WalkLevels, Got, Before, LevelOf;
    GotAtLevel(sh, v, level);
    WalkInRange(sh, v, true);
    var got := Got(sh, v, Before(sh, level));
    forall i | 0 <= i < |got|
      ensures got[i] < sh.n
    {
      assert got[i] == Walk(sh, v, true)[i];
    }
  }

  lemma {:induction false} PointerEnds(sh: Shape, sizes: seq<nat>, v: nat, level: nat)
    requires ValidShape(sh) && |sizes| == sh.n && v < sh.n && LevelOf(sh.order, v) < level <= Depth(sh) - 1
    requires ChildLo(sh, v, level) < ChildHi(sh, v, level)
    ensures AllNodes(sh, Before(sh, level)) && ChildHi(sh, v, level) <= sh.n && 0 < ChildLo(sh, v, level)
    ensures InRange(SoFar(sh, v, level, ChildLo(sh, v, level)), sh.n)
    ensures InRange(SoFar(sh, v, level, ChildHi(sh, v, level)), sh.n)
    ensures Bytes(sizes, SoFar(sh, v, level, ChildLo(sh, v, level))) == PointerAt(sh, sizes, v, level)
    ensures Bytes(sizes, SoFar(sh, v, level, ChildHi(sh, v, level))) == PointerAt(sh, sizes, v, level - 1)
  {
    hide Walk, Got, Before, ChildLo, ChildHi, LevelOf, SoFar, Bytes;
    SoFarEnds(sh, v, level);
    SoFarInRange(sh, v, level, ChildLo(sh, v, level));
    SoFarInRange(sh, v, level, ChildHi(sh, v, level));
    InSpan(sh, v, level, ChildLo(sh, v, level));
  }

  lemma {:induction false} SetupParts(sh: Shape, tree: Tree, lists: seq<seq<nat>>, rootHost: nat,
                                      dataToSendNow: seq<nat>, v: nat)
    requires GatherSetup(sh, tree, lists, rootHost, dataToSendNow) && v < sh.n
    ensures ValidShape(sh) && rootHost < sh.n && |dataToSendNow| == |lists| == sh.n
    ensures Sized(tree, sh.n) && tree.nNodes == sh.n && tree.order == sh.order
    ensures tree.downNodes[v] == Children(sh, v) && tree.nDownNodes[v] == |Children(sh, v)|
    ensures lists[v] == Walk(sh, v, true) && InRange(lists[v], sh.n)
    ensures Bytes(Shifted(dataToSendNow, rootHost), lists[v]) == TreeBytes(sh, Shifted(dataToSendNow, rootHost), v)
    ensures v > 0 ==> tree.nUpNodes[v] == 1 && tree.upNodes[v] == Parent(sh.order, v) && Parent(sh.order, v) < sh.n
    ensures v == 0 ==> tree.nUpNodes[v] == 0
  {
    hide Walk, Children, Bytes;
    assert IsNode(sh, tree, v);
    WalkInRange(sh, v, true);
    if v > 0 {
      ParentOfChild(sh.order, v);
    }
  }

  lemma {:induction false} RecvOpIs(sh: Shape, sizes: seq<nat>, root: nat, v: nat, c: nat, source: nat)
    requires ValidShape(sh) && |sizes| == sh.n && root < sh.n && v < sh.n && 0 < c < sh.n
    requires source == if c + root >= sh.n then c + root - sh.n else c + root
    ensures RecvOp(sh, sizes, root, v, c) ==
      Round(None, Some(Half(source, Segment(RecvOffset(sh, sizes, v, c), TreeBytes(sh, sizes, c)))))
  {
    hide RecvOffset, TreeBytes;
  }

  /** Fills in the receives from the children of one level. */
  method FillRequests(tree: Tree, lists: seq<seq<nat>>, myTreeNodeID: nat, rootHost: nat, dataToSendNow: seq<nat>,
                      startIndex: nat, count: nat, recvPtr0: nat,
                      sourceHost: array<nat>, size: array<nat>, buffPtr: array<nat>, ghost sh: Shape, ghost level: nat)
    returns (recvPtr: nat)
    requires GatherSetup(sh, tree, lists, rootHost, dataToSendNow) && myTreeNodeID < sh.n
    requires LevelOf(sh.order, myTreeNodeID) < level <= Depth(sh) - 1 && 0 < count
    requires startIndex == |ChildrenUpto(sh, myTreeNodeID, level - 1)|
    requires startIndex + count == |ChildrenUpto(sh, myTreeNodeID, level)|
    requires count <= sourceHost.Length && count <= size.Length && count <= buffPtr.Length
    requires sourceHost != size && sourceHost != buffPtr && size != buffPtr
    requires recvPtr0 == PointerAt(sh, Shifted(dataToSendNow, rootHost), myTreeNodeID, level)
    modifies sourceHost, size, buffPtr
    ensures 0 < ChildLo(sh, myTreeNodeID, level)
    ensures ChildLo(sh, myTreeNodeID, level) + count == ChildHi(sh, myTreeNodeID, level) <= sh.n
    ensures recvPtr == PointerAt(sh, Shifted(dataToSendNow, rootHost), myTreeNodeID, level - 1)
    ensures Requested(sh, Shifted(dataToSendNow, rootHost), rootHost, myTreeNodeID, ChildLo(sh, myTreeNodeID, level),
                      count, sourceHost, size, buffPtr)
  {
    hide Walk, Children, ChildrenUpto, ChildLo, ChildHi, LevelOf, Depth, Bytes, SoFar, PointerAt, RecvOffset, TreeBytes,
         GatherSetup, Shifted, RecvOp;
    SetupParts(sh, tree, lists, rootHost, dataToSendNow, myTreeNodeID);
    ghost var sizes, v := Shifted(dataToSendNow, rootHost), myTreeNodeID;
    LevelSlice(sh, v, level);
    PointerEnds(sh, sizes, v, level);
    ghost var lo := ChildLo(sh, v, level);
    recvPtr := recvPtr0;
    for i := startIndex to startIndex + count
      invariant InRange(SoFar(sh, v, level, lo + (i - startIndex)), sh.n)
      invariant recvPtr == Bytes(sizes, SoFar(sh, v, level, lo + (i - startIndex)))
      invariant Requested(sh, sizes, rootHost, v, lo, i - startIndex, sourceHost, size, buffPtr)
    {
      var srcHost := tree.downNodes[myTreeNodeID][i];
      PointerStep(sh, sizes, v, level, srcHost);
      SetupParts(sh, tree, lists, rootHost, dataToSendNow, srcHost);
      var bytes := SubtreeBytes(lists[srcHost], rootHost, tree.nNodes, dataToSendNow);
      var source := if srcHost + rootHost >= tree.nNodes then srcHost + rootHost - tree.nNodes else srcHost + rootHost;
      RecvOpIs(sh, sizes, rootHost, v, srcHost, source);
      sourceHost[i - startIndex] := source;
      size[i - startIndex] := bytes;
      buffPtr[i - startIndex] := recvPtr;
      recvPtr := recvPtr + bytes;
    }
  }

  /** `ulm_recv_vec`: the posted receives, in order of the arrays. */
  method RecvVec(sourceHost: array<nat>, size: array<nat>, buffPtr: array<nat>,
                 count: nat) returns (ops: seq<Round<Segment>>)
    requires count <= sourceHost.Length && count <= size.Length && count <= buffPtr.Length
    ensures |ops| == count
    ensures forall i :: 0 <= i < count ==>
      ops[i] == Round(None, Some(Half(sourceHost[i], Segment(buffPtr[i], size[i]))))
  {
    ops := [];
    for i := 0 to count
      invariant |ops| == i
      invariant forall j :: 0 <= j < i ==>
        ops[j] == Round(None, Some(Half(sourceHost[j], Segment(buffPtr[j], size[j]))))
    {
      ops := ops + [Round(None, Some(Half(sourceHost[i], Segment(buffPtr[i], size[i]))))];
    }
  }

  /** The receives posted when nodes of `level` are about to send. */
  ghost function ReceivesAt(sh: Shape, sizes: seq<nat>, root: nat, v: nat, level: nat): seq<Round<Segment>>
    requires ValidShape(sh) && |sizes| == sh.n && root < sh.n && v < sh.n
    requires LevelOf(sh.order, v) <= level <= Depth(sh) - 1
  {
    LevelInRange(sh, v, level);
    HeardAreNodes(sh, v, Before(sh, level));
    RecvOps(sh, sizes, root, v, Heard(sh, v, Before(sh, level)))
  }

  lemma {:induction false} ReceivesStep(sh: Shape, sizes: seq<nat>, root: nat, v: nat, level: nat,
                                        more: seq<Round<Segment>>)
    requires ValidShape(sh) && |sizes| == sh.n && root < sh.n && v < sh.n
    requires LevelOf(sh.order, v) < level <= Depth(sh) - 1
    requires |more| == ChildHi(sh, v, level) - ChildLo(sh, v, level)
    requires 0 < |more| ==> 0 < ChildLo(sh, v, level) && ChildHi(sh, v, level) <= sh.n
    requires forall i :: 0 <= i < |more| ==> more[i] == RecvOp(sh, sizes, root, v, ChildLo(sh, v, level) + i)
    ensures ReceivesAt(sh, sizes, root, v, level - 1) == ReceivesAt(sh, sizes, root, v, level) + more
  {
    hide Heard, Before, ChildLo, ChildHi, LevelOf, RecvOp, RecvOps;
    LevelInRange(sh, v, level);
    LevelHeard(sh, v, level);
    HeardAreNodes(sh, v, Before(sh, level));
    HeardAreNodes(sh, v, Before(sh, level - 1));
    RecvOpsAppend(sh, sizes, root, v, Heard(sh, v, Before(sh, level)), ChildLo(sh, v, level), ChildHi(sh, v, level),
                  more);
  }

  lemma {:induction false} RecvOpsAppend(sh: Shape, sizes: seq<nat>, root: nat, v: nat, kids: seq<nat>, lo: nat,
                                         hi: nat, more: seq<Round<Segment>>)
    requires ValidShape(sh) && |sizes| == sh.n && root < sh.n && v < sh.n && lo <= hi && |more| == hi - lo
    requires AllNodes(sh, kids) && AllNodes(sh, kids + Span(lo, hi)) && (lo < hi ==> 0 < lo && hi <= sh.n)
    requires forall i :: 0 <= i < |more| ==> more[i] == RecvOp(sh, sizes, root, v, lo + i)
    ensures RecvOps(sh, sizes, root, v, kids + Span(lo, hi)) == RecvOps(sh, sizes, root, v, kids) + more
  {
    hide RecvOp;
  }

  /** The receives from the children of one level. */
  method RecvLevel(tree: Tree, lists: seq<seq<nat>>, myTreeNodeID: nat, rootHost: nat, dataToSendNow: seq<nat>,
                   startIndex: nat, count: nat, recvPtr0: nat, ops0: seq<Round<Segment>>,
                   sourceHost: array<nat>, size: array<nat>, buffPtr: array<nat>, ghost sh: Shape, ghost level: nat)
    returns (recvPtr: nat, ops: seq<Round<Segment>>)
    requires GatherSetup(sh, tree, lists, rootHost, dataToSendNow) && myTreeNodeID < sh.n
    requires LevelOf(sh.order, myTreeNodeID) < level <= Depth(sh) - 1 && 0 < count
    requires startIndex == |ChildrenUpto(sh, myTreeNodeID, level - 1)|
    requires startIndex + count == |ChildrenUpto(sh, myTreeNodeID, level)|
    requires count <= sourceHost.Length && count <= size.Length && count <= buffPtr.Length
    requires sourceHost != size && sourceHost != buffPtr && size != buffPtr
    requires recvPtr0 == PointerAt(sh, Shifted(dataToSendNow, rootHost), myTreeNodeID, level)
    requires ops0 == ReceivesAt(sh, Shifted(dataToSendNow, rootHost), rootHost, myTreeNodeID, level)
    modifies sourceHost, size, buffPtr
    ensures recvPtr == PointerAt(sh, Shifted(dataToSendNow, rootHost), myTreeNodeID, level - 1)
    ensures ops == ReceivesAt(sh, Shifted(dataToSendNow, rootHost), rootHost, myTreeNodeID, level - 1)
  {
    hide ReceivesAt, ChildLo, ChildHi, LevelOf, Depth, PointerAt, RecvOp, IsTree, ChildrenUpto;
    recvPtr := FillRequests(tree, lists, myTreeNodeID, rootHost, dataToSendNow, startIndex, count, recvPtr0,
                            sourceHost, size, buffPtr, sh, level);
    var more := RecvVec(sourceHost, size, buffPtr, count);
    ReceivesStep(sh, Shifted(dataToSendNow, rootHost), rootHost, myTreeNodeID, level, more);
    ops := ops0 + more;
  }

  lemma {:induction false} GatherBegins(sh: Shape, sizes: seq<nat>, root: nat, v: nat)
    requires ValidShape(sh) && |sizes| == sh.n && root < sh.n && v < sh.n
    ensures LevelOf(sh.order, v) <= Depth(sh) - 1
    ensures PointerAt(sh, sizes, v, Depth(sh) - 1) == sizes[v] && ReceivesAt(sh, sizes, root, v, Depth(sh) - 1) == []
  {
    hide LevelOf;
    LevelsFit(sh, v);
    GotFirst(sh, v);
    assert Bytes(sizes, [v]) == sizes[v];
  }

  /** A level at which v has no children changes nothing. */
  lemma {:induction false} EmptyLevel(sh: Shape, sizes: seq<nat>, root: nat, v: nat, level: nat)
    requires ValidShape(sh) && |sizes| == sh.n && root < sh.n && v < sh.n
    requires LevelOf(sh.order, v) < level <= Depth(sh) - 1
    requires ChildLo(sh, v, level) == ChildHi(sh, v, level)
    ensures PointerAt(sh, sizes, v, level - 1) == PointerAt(sh, sizes, v, level)
    ensures ReceivesAt(sh, sizes, root, v, level - 1) == ReceivesAt(sh, sizes, root, v, level)
  {
    hide LevelOf, ChildLo, ChildHi, ReceivesAt, Got, Before, Bytes, RecvOp;
    ReceivesStep(sh, sizes, root, v, level, []);
    SoFarEnds(sh, v, level);
  }

  lemma {:induction false} GatherFinishes(sh: Shape, sizes: seq<nat>, root: nat, v: nat, level: nat)
    requires ValidShape(sh) && |sizes| == sh.n && root < sh.n && v < sh.n
    requires LevelOf(sh.order, v) <= level <= Depth(sh) - 1
    requires |ChildrenUpto(sh, v, level)| == 0 && (level == Depth(sh) - 1 ==> level == LevelOf(sh.order, v))
    ensures Active(GatherScript(sh, sizes, root, v)) ==
      ReceivesAt(sh, sizes, root, v, level) + if v > 0 then [SendOp(sh, sizes, root, v)] else []
  {
    hide LevelOf, Depth, Heard, Before, Got, RecvOp, SendOp, SendOrder, GatherScript, ChildrenUpto, Active;
    if level > LevelOf(sh.order, v) {
      LevelSlice(sh, v, level);
    }
    assert level == LevelOf(sh.order, v);
    LevelInRange(sh, v, level);
    HeardSettles(sh, v, 0);
    WholeOrder(sh, v);
    ActiveIsPosted(sh, sizes, root, v, |SendOrder(sh)|);
    var script := GatherScript(sh, sizes, root, v);
    assert script[..|SendOrder(sh)|] == script && SendOrder(sh)[..|SendOrder(sh)|] == SendOrder(sh);
  }

  lemma {:induction false} WholeOrder(sh: Shape, v: nat)
    requires ValidShape(sh) && v < sh.n
    ensures Before(sh, 0) == SendOrder(sh) && (v in SendOrder(sh) <==> v > 0)
  {
    OrderSplits(sh, 0);
    assert Before(sh, 0) + [] == Before(sh, 0);
    if v > 0 {
      LevelsFit(sh, v);
      EveryoneSends(sh, Depth(sh) - 1, v);
    } else if v in SendOrder(sh) {
      BeforeLevels(sh, 0, v);
    }
  }

  /** The receives of node `myTreeNodeID`: the partial last level, then one full level at a time. */
  method RecvFromChildren(tree: Tree, gatherDataNodeList: seq<seq<nat>>, myTreeNodeID: nat, rootHost: nat,
                          dataToSendNow: seq<nat>, recvPtr0: nat, ghost sh: Shape)
    returns (ops: seq<Round<Segment>>, ghost level: nat)
    requires GatherSetup(sh, tree, gatherDataNodeList, rootHost, dataToSendNow) && myTreeNodeID < sh.n
    requires recvPtr0 == Shifted(dataToSendNow, rootHost)[myTreeNodeID]
    ensures LevelOf(sh.order, myTreeNodeID) <= level <= Depth(sh) - 1
    ensures |ChildrenUpto(sh, myTreeNodeID, level)| == 0 &&
      (level == Depth(sh) - 1 ==> level == LevelOf(sh.order, myTreeNodeID))
    ensures ops == ReceivesAt(sh, Shifted(dataToSendNow, rootHost), rootHost, myTreeNodeID, level)
  {
    hide LevelOf, Depth, ChildLo, ChildHi, ChildrenUpto, Children, PartialCount, PointerAt, ReceivesAt,
         IsTree, TreeBytes, RecvOp, Parent, Walk, Bytes, GatherSetup;
    SetupParts(sh, tree, gatherDataNodeList, rootHost, dataToSendNow, myTreeNodeID);
    ghost var sizes, v := Shifted(dataToSendNow, rootHost), myTreeNodeID;
    var sourceHost := new nat[tree.order - 1];
    var size := new nat[tree.order - 1];
    var buffPtr := new nat[tree.order - 1];
    var nDownNodes := tree.nDownNodes[myTreeNodeID];
    var recvPtr, nRecved;
    recvPtr, nRecved, ops, level :=
      RecvPartialLevel(tree, gatherDataNodeList, myTreeNodeID, rootHost, dataToSendNow, recvPtr0, sourceHost, size,
                       buffPtr, sh);
    while nRecved < tree.nDownNodes[myTreeNodeID]
      invariant LevelOf(sh.order, v) <= level <= Depth(sh) - 1
      invariant level == Depth(sh) - 1 ==> level == LevelOf(sh.order, v)
      invariant nRecved == nDownNodes - |ChildrenUpto(sh, v, level)|
      invariant recvPtr == PointerAt(sh, sizes, v, level)
      invariant ops == ReceivesAt(sh, sizes, rootHost, v, level)
      decreases level
    {
      LevelsLeft(sh, v, level);
      LevelSlice(sh, v, level);
      recvPtr, ops := RecvLevel(tree, gatherDataNodeList, myTreeNodeID, rootHost, dataToSendNow,
        nDownNodes - nRecved - (tree.order - 1), tree.order - 1, recvPtr, ops, sourceHost, size, buffPtr, sh, level);
      nRecved := nRecved + (tree.order - 1);
      level := level - 1;
    }
  }

  method RecvPartialLevel(tree: Tree, gatherDataNodeList: seq<seq<nat>>, myTreeNodeID: nat, rootHost: nat,
                          dataToSendNow: seq<nat>, recvPtr0: nat,
                          sourceHost: array<nat>, size: array<nat>, buffPtr: array<nat>, ghost sh: Shape)
    returns (recvPtr: nat, nRecved: nat, ops: seq<Round<Segment>>, ghost level: nat)
    requires GatherSetup(sh, tree, gatherDataNodeList, rootHost, dataToSendNow) && myTreeNodeID < sh.n
    requires recvPtr0 == Shifted(dataToSendNow, rootHost)[myTreeNodeID]
    requires sourceHost.Length == size.Length == buffPtr.Length == sh.order - 1
    requires sourceHost != size && sourceHost != buffPtr && size != buffPtr
    modifies sourceHost, size, buffPtr
    ensures LevelOf(sh.order, myTreeNodeID) <= level <= Depth(sh) - 1
    ensures level == Depth(sh) - 1 ==> level == LevelOf(sh.order, myTreeNodeID)
    ensures nRecved == |Children(sh, myTreeNodeID)| - |ChildrenUpto(sh, myTreeNodeID, level)|
    ensures recvPtr == PointerAt(sh, Shifted(dataToSendNow, rootHost), myTreeNodeID, level)
    ensures ops == ReceivesAt(sh, Shifted(dataToSendNow, rootHost), rootHost, myTreeNodeID, level)
  {
    hide LevelOf, Depth, ChildLo, ChildHi, ChildrenUpto, PartialCount, PointerAt, ReceivesAt,
         IsTree, TreeBytes, RecvOp, Parent, Walk, Bytes, GatherSetup;
    SetupParts(sh, tree, gatherDataNodeList, rootHost, dataToSendNow, myTreeNodeID);
    ghost var sizes, v := Shifted(dataToSendNow, rootHost), myTreeNodeID;
    PartialParts(sh, tree, gatherDataNodeList, rootHost, dataToSendNow, v);
    GatherBegins(sh, sizes, rootHost, v);
    recvPtr, nRecved, ops, level := recvPtr0, 0, [], Depth(sh) - 1;
    var nInPartialLevel, nDownNodes := tree.nInPartialLevel[myTreeNodeID], tree.nDownNodes[myTreeNodeID];
    if level > LevelOf(sh.order, v) {
      LevelSlice(sh, v, level);
      if nInPartialLevel == 0 {
        EmptyLevel(sh, sizes, rootHost, v, level);
      }
    }
    if nInPartialLevel > 0 {
      recvPtr, ops := RecvLevel(tree, gatherDataNodeList, myTreeNodeID, rootHost, dataToSendNow,
        nDownNodes - nInPartialLevel, nInPartialLevel, recvPtr, ops, sourceHost, size, buffPtr, sh, level);
      nRecved := nRecved + nInPartialLevel;
    }
    if level > LevelOf(sh.order, v) {
      level := level - 1;
    }
  }

  lemma {:induction false} PartialParts(sh: Shape, tree: Tree, lists: seq<seq<nat>>, rootHost: nat,
                                        dataToSendNow: seq<nat>, v: nat)
    requires GatherSetup(sh, tree, lists, rootHost, dataToSendNow) && v < sh.n
    ensures tree.nDownNodes[v] == |ChildrenUpto(sh, v, Depth(sh) - 1)| && tree.nInPartialLevel[v] == PartialCount(sh, v)
    ensures LevelOf(sh.order, v) == Depth(sh) - 1 ==> PartialCount(sh, v) == 0
  {
    GatherParts(sh, tree, v);
  }

  /** `ulm_gather_interhost` of one host: exactly the rounds of its script in which it does something. */
  method UlmGatherInterhost(tree: Tree, gatherDataNodeList: seq<seq<nat>>, myHostRank: nat, rootHost: nat,
                            dataToSendNow: seq<nat>, ghost sh: Shape)
    returns (ops: seq<Round<Segment>>)
    requires GatherSetup(sh, tree, gatherDataNodeList, rootHost, dataToSendNow) && myHostRank < sh.n
    ensures ops ==
      Active(GatherScript(sh, Shifted(dataToSendNow, rootHost), rootHost, ToRelative(myHostRank, rootHost, sh.n)))
  {
    hide LevelOf, Depth, ChildrenUpto, Children, Active, GatherScript, ReceivesAt, IsTree, TreeBytes, RecvOp, Parent,
         Walk, Bytes;
    SetupParts(sh, tree, gatherDataNodeList, rootHost, dataToSendNow, 0);
    var myTreeNodeID: int := myHostRank - rootHost;
    if myTreeNodeID < 0 {
      myTreeNodeID := myTreeNodeID + tree.nNodes;
    }
    SetupParts(sh, tree, gatherDataNodeList, rootHost, dataToSendNow, myTreeNodeID);
    ModuloForms(myHostRank, rootHost, sh.n);
    ghost var level;
    ops, level := RecvFromChildren(tree, gatherDataNodeList, myTreeNodeID, rootHost, dataToSendNow,
                                   dataToSendNow[myHostRank], sh);
    GatherFinishes(sh, Shifted(dataToSendNow, rootHost), rootHost, myTreeNodeID, level);
    if tree.nUpNodes[myTreeNodeID] == 1 {
      var send := SendToParent(tree, gatherDataNodeList, myTreeNodeID, rootHost, dataToSendNow, sh);
      ops := ops + [send];
    }
  }

  method SendToParent(tree: Tree, gatherDataNodeList: seq<seq<nat>>, myTreeNodeID: nat, rootHost: nat,
                      dataToSendNow: seq<nat>, ghost sh: Shape)
    returns (op: Round<Segment>)
    requires GatherSetup(sh, tree, gatherDataNodeList, rootHost, dataToSendNow) && 0 < myTreeNodeID < sh.n
    ensures op == SendOp(sh, Shifted(dataToSendNow, rootHost), rootHost, myTreeNodeID)
  {
    hide LevelOf, Depth, Children, IsTree, TreeBytes, Parent, Walk, Bytes;
    SetupParts(sh, tree, gatherDataNodeList, rootHost, dataToSendNow, myTreeNodeID);
    var destinationHost: int := tree.upNodes[myTreeNodeID] + rootHost;
    if destinationHost >= tree.nNodes {
      destinationHost := destinationHost - tree.nNodes;
    }
    var bytesToSend := SubtreeBytes(gatherDataNodeList[myTreeNodeID], rootHost, tree.nNodes, dataToSendNow);
    op := Round(Some(Half(destinationHost, Segment(0, bytesToSend))), None);
  }
}
