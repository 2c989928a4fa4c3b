/** `ulm_scatter_interhost`: what every host receives and sends, and from where. */
module ScatterInterhost {
  import opened Arith
  import opened Layout
  import opened Network
  import opened Buffers
  import opened NaryTree
  import opened TreeWalk
  import opened CollTree
  import opened Ranks

  /** The position of node c among the children of its parent. */
  ghost function KidIndex(sh: Shape, c: nat): (i: nat)
    requires ValidShape(sh) && 0 < c < sh.n
    ensures Parent(sh.order, c) < c
    ensures i < |Children(sh, Parent(sh.order, c))| && Children(sh, Parent(sh.order, c))[i] == c
  {
    ChildrenAreParented(sh, Parent(sh.order, c), c);
    var i :| 0 <= i < |Children(sh, Parent(sh.order, c))| && Children(sh, Parent(sh.order, c))[i] == c;
    i
  }

  lemma {:induction false} KidsAreNodes(sh: Shape, p: nat)
    requires ValidShape(sh) && p < sh.n
    ensures forall i :: 0 <= i < |Children(sh, p)| ==> p < Children(sh, p)[i] < sh.n
    ensures Increasing(Children(sh, p))
    ensures Walk(sh, p, false) == [p] + WalkKids(sh, Children(sh, p))
  {
    hide ChildrenUpto, WalkLevels, WalkKids, Depth;
    LevelsAreKids(sh, p, Depth(sh) - 1);
    ChildrenIncrease(sh, p, Depth(sh) - 1);
  }

  lemma {:induction false} KidsPrefix(sh: Shape, kids: seq<nat>, i: nat)
    requires ValidShape(sh) && i <= |kids| && forall j :: 0 <= j < |kids| ==> kids[j] < sh.n
    ensures WalkKids(sh, kids[..i]) <= WalkKids(sh, kids)
    decreases |kids|
  {
    hide Walk;
    if i == |kids| {
      assert kids[..i] == kids;
    } else {
      KidsPrefix(sh, kids[..|kids| - 1], i);
      assert kids[..|kids| - 1][..i] == kids[..i];
    }
  }

  /** What lies before the data of p's i-th child in p's buffer. */
  ghost function Ahead(sh: Shape, p: nat, i: nat): (a: seq<nat>)
    requires ValidShape(sh) && p < sh.n && i <= |Children(sh, p)|
    ensures InRange(a, sh.n)
  {
    AheadFits(sh, p, i);
    [p] + WalkKids(sh, Children(sh, p)[..i])
  }

  lemma {:induction false} AheadFits(sh: Shape, p: nat, i: nat)
    requires ValidShape(sh) && p < sh.n && i <= |Children(sh, p)|
    ensures forall j :: 0 <= j < |Children(sh, p)| ==> p < Children(sh, p)[j] < sh.n
    ensures [p] + WalkKids(sh, Children(sh, p)[..i]) <= Walk(sh, p, false)
    ensures InRange([p] + WalkKids(sh, Children(sh, p)[..i]), sh.n)
  {
    hide Walk, Children, WalkKids;
    KidsAreNodes(sh, p);
    KidsPrefix(sh, Children(sh, p), i);
    WalkInRange(sh, p, false);
    var a := [p] + WalkKids(sh, Children(sh, p)[..i]);
    forall k | 0 <= k < |a|
      ensures a[k] < sh.n
    {
      assert a[k] == Walk(sh, p, false)[k];
    }
  }

  /** The child's subtree comes next, as a block. */
  lemma {:induction false} AheadStep(sh: Shape, p: nat, i: nat)
    requires ValidShape(sh) && p < sh.n && i < |Children(sh, p)|
    ensures Children(sh, p)[i] < sh.n
    ensures Ahead(sh, p, i + 1) == Ahead(sh, p, i) + Walk(sh, Children(sh, p)[i], false)
    ensures Ahead(sh, p, i + 1) <= Walk(sh, p, false)
  {
    hide Walk, Children, WalkKids;
    KidsAreNodes(sh, p);
    AheadFits(sh, p, i + 1);
    KidsStep(sh, Children(sh, p), i);
  }

  ghost function ScatterBytes(sh: Shape, sizes: seq<nat>, v: nat): nat
    requires ValidShape(sh) && |sizes| == sh.n && v < sh.n
  {
    WalkInRange(sh, v, false);
    Bytes(sizes, Walk(sh, v, false))
  }

  ghost function RecvOp(sh: Shape, sizes: seq<nat>, root: nat, c: nat): Round<Segment>
    requires ValidShape(sh) && |sizes| == sh.n && root < sh.n && 0 < c < sh.n
  {
    ParentOfChild(sh.order, c);
    Round(None, Some(Half(ToAbsolute(Parent(sh.order, c), root, sh.n), Segment(0, ScatterBytes(sh, sizes, c)))))
  }

  /** What p sends to its i-th child: the block of that child's subtree. */
  ghost function SendOp(sh: Shape, sizes: seq<nat>, root: nat, p: nat, i: nat): Round<Segment>
    requires ValidShape(sh) && |sizes| == sh.n && root < sh.n && p < sh.n && i < |Children(sh, p)|
  {
    AheadStep(sh, p, i);
    var c := Children(sh, p)[i];
    Round(Some(Half(ToAbsolute(c, root, sh.n), Segment(Bytes(sizes, Ahead(sh, p, i)), ScatterBytes(sh, sizes, c)))),
          None)
  }

  /** In round r the parent of node r + 1 sends to it. */
  ghost function NodeRound(sh: Shape, sizes: seq<nat>, root: nat, v: nat, r: nat): Round<Segment>
    requires ValidShape(sh) && |sizes| == sh.n && root < sh.n && v < sh.n && r + 1 < sh.n
  {
    if v == r + 1 then RecvOp(sh, sizes, root, v)
    else if v == Parent(sh.order, r + 1) then SendOp(sh, sizes, root, v, KidIndex(sh, r + 1))
    else Idle()
  }

  ghost function ScatterScript(sh: Shape, sizes: seq<nat>, root: nat, v: nat): (s: seq<Round<Segment>>)
    requires ValidShape(sh) && |sizes| == sh.n && root < sh.n && v < sh.n
    ensures |s| == sh.n - 1
    ensures forall r :: 0 <= r < |s| ==> s[r] == NodeRound(sh, sizes, root, v, r)
  {
    seq(sh.n - 1, r requires 0 <= r < sh.n - 1 => NodeRound(sh, sizes, root, v, r))
  }

  // ---------------------------------------------------------------- what a host really posts

  /** The children of v among the nodes below b. */
  ghost function ChildrenBelow(sh: Shape, v: nat, b: nat): seq<nat>
    requires ValidShape(sh) && b <= sh.n
  {
    if b <= 1 then [] else ChildrenBelow(sh, v, b - 1) + if Parent(sh.order, b - 1) == v then [b - 1] else []
  }

  lemma {:induction false} BelowMembers(sh: Shape, v: nat, b: nat)
    requires ValidShape(sh) && b <= sh.n
    ensures forall c :: c in ChildrenBelow(sh, v, b) <==> 0 < c < b && Parent(sh.order, c) == v
    ensures Increasing(ChildrenBelow(sh, v, b))
  {
    if b > 1 {
      BelowMembers(sh, v, b - 1);
      var below := ChildrenBelow(sh, v, b - 1);
      forall i | 0 <= i < |below|
        ensures below[i] < b - 1
      {
        assert below[i] in below;
      }
    }
  }

  lemma {:induction false} FirstIsMember(s: seq<nat>)
    ensures s == [] || s[0] in s
  {
  }

  /** Ascending lists with the same members are the same list. */
  lemma {:induction false} SameMembers(a: seq<nat>, b: seq<nat>)
    requires Increasing(a) && Increasing(b) && forall x :: x in a <==> x in b
    ensures a == b
    decreases |a|
  {
    FirstIsMember(b);
    if a != [] {
      assert a[0] in a && a[|a| - 1] in a;
      var x, y := a[|a| - 1], b[|b| - 1];
      assert x in b && y in a;
      var a', b' := a[..|a| - 1], b[..|b| - 1];
      assert x == y;
      forall z
        ensures z in a' <==> z in b'
      {
        assert z in a <==> z in a' || z == x;
        assert z in b <==> z in b' || z == y;
        assert x !in a' && y !in b';
      }
      SameMembers(a', b');
    }
  }

  lemma {:induction false} BelowIsChildren(sh: Shape, v: nat)
    requires ValidShape(sh) && v < sh.n
    ensures ChildrenBelow(sh, v, sh.n) == Children(sh, v)
  {
    hide Children, ChildrenBelow, Parent;
    BelowMembers(sh, v, sh.n);
    KidsAreNodes(sh, v);
    forall c
      ensures c in Children(sh, v) <==> c in ChildrenBelow(sh, v, sh.n)
    {
      ChildrenAreParented(sh, v, c);
    }
    SameMembers(ChildrenBelow(sh, v, sh.n), Children(sh, v));
  }

  lemma {:induction false} BelowIsPrefix(sh: Shape, v: nat, b: nat)
    requires ValidShape(sh) && v < sh.n && b <= sh.n
    ensures ChildrenBelow(sh, v, b) <= Children(sh, v)
    decreases sh.n - b
  {
    if b == sh.n {
      BelowIsChildren(sh, v);
    } else {
      BelowIsPrefix(sh, v, b + 1);
    }
  }

  /** The sends to the first k children. */
  ghost function SendOps(sh: Shape, sizes: seq<nat>, root: nat, p: nat, k: nat): (ops: seq<Round<Segment>>)
    requires ValidShape(sh) && |sizes| == sh.n && root < sh.n && p < sh.n && k <= |Children(sh, p)|
    ensures |ops| == k && forall i :: 0 <= i < k ==> ops[i] == SendOp(sh, sizes, root, p, i)
  {
    seq(k, i requires 0 <= i < k => SendOp(sh, sizes, root, p, i))
  }

  /** The first r rounds of v's script: the receive, then the sends to its children below r + 1. */
  ghost function Posted(sh: Shape, sizes: seq<nat>, root: nat, v: nat, r: nat): seq<Round<Segment>>
    requires ValidShape(sh) && |sizes| == sh.n && root < sh.n && v < sh.n && r < sh.n
  {
    BelowIsPrefix(sh, v, r + 1);
    var sends := SendOps(sh, sizes, root, v, |ChildrenBelow(sh, v, r + 1)|);
    (if 0 < v <= r then [RecvOp(sh, sizes, root, v)] else []) + sends
  }

  lemma {:induction false} PostedStep(sh: Shape, sizes: seq<nat>, root: nat, v: nat, r: nat)
    requires ValidShape(sh) && |sizes| == sh.n && root < sh.n && v < sh.n && r + 1 < sh.n
    ensures var round := NodeRound(sh, sizes, root, v, r);
      Posted(sh, sizes, root, v, r + 1) ==
        Posted(sh, sizes, root, v, r) + if round.out.None? && round.inc.None? then [] else [round]
  {
    hide RecvOp, SendOp, Parent, Children;
    ParentOfChild(sh.order, r + 1);
    BelowIsPrefix(sh, v, r + 1);
    BelowIsPrefix(sh, v, r + 2);
    OpShapes(sh, sizes, root, v, r + 1);
    if v == r + 1 {
      NoChildrenYet(sh, v, v);
    } else if v == Parent(sh.order, r + 1) {
      var kids := Children(sh, v);
      KidsAreNodes(sh, v);
      var i, j := KidIndex(sh, r + 1), |ChildrenBelow(sh, v, r + 1)|;
      assert kids[j] == ChildrenBelow(sh, v, r + 2)[j] == r + 1;
      assert i == j;
    }
  }

  lemma {:induction false} NoChildrenYet(sh: Shape, v: nat, b: nat)
    requires ValidShape(sh) && v < sh.n && b <= v
    ensures ChildrenBelow(sh, v, b + 1) == []
  {
    if b > 0 {
      NoChildrenYet(sh, v, b - 1);
      ParentOfChild(sh.order, b);
    }
  }

  lemma {:induction false} OpShapes(sh: Shape, sizes: seq<nat>, root: nat, v: nat, c: nat)
    requires ValidShape(sh) && |sizes| == sh.n && root < sh.n && v < sh.n && 0 < c < sh.n
    ensures RecvOp(sh, sizes, root, c).inc.Some?
    ensures v == Parent(sh.order, c) ==> SendOp(sh, sizes, root, v, KidIndex(sh, c)).out.Some?
  {
  }

  lemma {:induction false} ActiveIsPosted(sh: Shape, sizes: seq<nat>, root: nat, v: nat, r: nat)
    requires ValidShape(sh) && |sizes| == sh.n && root < sh.n && v < sh.n && r < sh.n
    ensures Active(ScatterScript(sh, sizes, root, v)[..r]) == Posted(sh, sizes, root, v, r)
    decreases r
  {
    hide Posted, NodeRound;
    var script := ScatterScript(sh, sizes, root, v);
    if r == 0 {
      NothingPosted(sh, sizes, root, v);
    } else {
      ActiveIsPosted(sh, sizes, root, v, r - 1);
      PostedStep(sh, sizes, root, v, r - 1);
      assert script[..r][..r - 1] == script[..r - 1];
    }
  }

  lemma {:induction false} NothingPosted(sh: Shape, sizes: seq<nat>, root: nat, v: nat)
    requires ValidShape(sh) && |sizes| == sh.n && root < sh.n && v < sh.n
    ensures Posted(sh, sizes, root, v, 0) == []
  {
  }

  /** All that node v does: it receives its subtree's data, unless it is the root, and serves its children in order. */
  lemma {:induction false} ActiveIs(sh: Shape, sizes: seq<nat>, root: nat, v: nat)
    requires ValidShape(sh) && |sizes| == sh.n && root < sh.n && v < sh.n
    ensures Active(ScatterScript(sh, sizes, root, v)) ==
      (if v > 0 then [RecvOp(sh, sizes, root, v)] else []) + SendOps(sh, sizes, root, v, |Children(sh, v)|)
  {
    hide SendOp, RecvOp, Children, ChildrenBelow, Active, NodeRound;
    ActiveIsPosted(sh, sizes, root, v, sh.n - 1);
    BelowIsChildren(sh, v);
    var script := ScatterScript(sh, sizes, root, v);
    assert script[..sh.n - 1] == script;
  }

  // ---------------------------------------------------------------- full groups and the rest

  lemma {:induction false} FullGroups(sh: Shape, v: nat, level: nat)
    requires ValidShape(sh) && LevelOf(sh.order, v) <= level < Depth(sh) - 1
    ensures |ChildrenUpto(sh, v, level)| == (level - LevelOf(sh.order, v)) * (sh.order - 1)
    decreases level
  {
    var base, w := LevelOf(sh.order, v), sh.order - 1;
    if level > base {
      FullGroups(sh, v, level - 1);
      FullLevel(sh, v, level);
      assert (level - base) * w == (level - 1 - base) * w + w;
    }
  }

  /** The children are some full groups of `order - 1`, and `nInPartialLevel` more or another full group. */
  lemma {:induction false} Leftover(sh: Shape, v: nat)
    requires ValidShape(sh) && v < sh.n
    ensures var w, d, k := sh.order - 1, |Children(sh, v)|, Quotient(|Children(sh, v)|, sh.order - 1);
      && k * w <= d < k * w + w
      && (d - k * w > 0 ==> d - k * w == PartialCount(sh, v))
  {
    hide ChildrenUpto, LevelOf, ChildLo, ChildHi;
    LevelsFit(sh, v);
    var base, last, w := LevelOf(sh.order, v), Depth(sh) - 1, sh.order - 1;
    if base < last {
      FullGroups(sh, v, last - 1);
      LevelSlice(sh, v, last);
      var k, rest := last - 1 - base, PartialCount(sh, v);
      if rest < w {
        DivisionIs(|Children(sh, v)|, w, k, rest);
      } else {
        assert (k + 1) * w == k * w + w;
        DivisionIs(|Children(sh, v)|, w, k + 1, 0);
      }
    } else {
      LastLevelIsLeaf(sh, v);
      DivisionIs(0, w, 0, 0);
    }
  }

  // ---------------------------------------------------------------- ulm_scatter_interhost

  /** `dataPerProc` bytes for every process of every host. */
  function HostBytes(dataPerProc: nat, nProcs: seq<nat>): (sizes: seq<nat>)
    ensures |sizes| == |nProcs| && forall h :: 0 <= h < |nProcs| ==> sizes[h] == dataPerProc * nProcs[h]
  {
    seq(|nProcs|, h requires 0 <= h < |nProcs| => dataPerProc * nProcs[h])
  }

  /** What `ulm_scatter_interhost` is given about the communicator. */
  ghost predicate ScatterSetup(sh: Shape, tree: Tree, scatterDataNodeList: seq<seq<nat>>, rootHost: nat,
                               nProcs: seq<nat>) {
    && ValidShape(sh) && IsTree(sh, tree) && rootHost < sh.n && |nProcs| == sh.n
    && |scatterDataNodeList| == sh.n
    && forall v :: 0 <= v < sh.n ==> scatterDataNodeList[v] == Walk(sh, v, false)
  }

  lemma {:induction false} SetupParts(sh: Shape, tree: Tree, lists: seq<seq<nat>>, rootHost: nat, dataPerProc: nat,
                                      nProcs: seq<nat>, v: nat)
    requires ScatterSetup(sh, tree, lists, rootHost, nProcs) && v < sh.n
    ensures ValidShape(sh) && rootHost < sh.n && |nProcs| == |lists| == sh.n
    ensures Sized(tree, sh.n) && tree.nNodes == sh.n && tree.order == sh.order
    ensures tree.downNodes[v] == Children(sh, v) && tree.nDownNodes[v] == |Children(sh, v)|
    ensures tree.nInPartialLevel[v] == PartialCount(sh, v)
    ensures lists[v] == Walk(sh, v, false) && InRange(lists[v], sh.n) && |lists[v]| >= 1 && lists[v][0] == v
    ensures var sizes := Shifted(HostBytes(dataPerProc, nProcs), rootHost);
      Bytes(sizes, lists[v]) == ScatterBytes(sh, sizes, v)
    ensures v > 0 ==> tree.nUpNodes[v] == 1 && tree.upNodes[v] == Parent(sh.order, v) && Parent(sh.order, v) < sh.n
    ensures v == 0 ==> tree.nUpNodes[v] == 0
  {
    hide Children, Bytes, PartialCount;
    assert IsNode(sh, tree, v);
    WalkInRange(sh, v, false);
    if v > 0 {
      ParentOfChild(sh.order, v);
    }
  }

  /** Adds up the data of a subtree's hosts from position `from` of its list on. */
  method SubtreeBytes(nodes: seq<nat>, from: nat, bytes0: nat, rootHost: nat, nNodes: nat, dataPerProc: nat,
                      nProcs: seq<nat>)
    returns (bytes: nat)
    requires |nProcs| == nNodes && rootHost < nNodes && InRange(nodes, nNodes) && from <= |nodes|
    requires bytes0 == Bytes(Shifted(HostBytes(dataPerProc, nProcs), rootHost), nodes[..from])
    ensures bytes == Bytes(Shifted(HostBytes(dataPerProc, nProcs), rootHost), nodes)
  {
    hide Bytes, Shifted, HostBytes;
    ghost var sizes := Shifted(HostBytes(dataPerProc, nProcs), rootHost);
    bytes := bytes0;
    for h := from to |nodes|
      invariant bytes == Bytes(sizes, nodes[..h])
    {
      var host := nodes[h] + rootHost;
      if host >= nNodes {
        host := host - nNodes;
      }
      bytes := bytes + dataPerProc * nProcs[host];
      BytesStep(sizes, nodes, h);
      assert sizes[nodes[h]] == HostBytes(dataPerProc, nProcs)[host];
    }
    assert nodes[..|nodes|] == nodes;
  }

  /** The request arrays hold the sends to the children from number `first` on. */
  ghost predicate Requested(sh: Shape, sizes: seq<nat>, root: nat, v: nat, first: nat, count: nat,
                            destHost: array<nat>, size: array<nat>, buffPtr: array<nat>)
    requires ValidShape(sh) && |sizes| == sh.n && root < sh.n && v < sh.n && first + count <= |Children(sh, v)|
    requires count <= destHost.Length && count <= size.Length && count <= buffPtr.Length
    reads destHost, size, buffPtr
  {
    forall i :: 0 <= i < count ==>
      Round(Some(Half(destHost[i], Segment(buffPtr[i], size[i]))), None) == SendOp(sh, sizes, root, v, first + i)
  }

  lemma {:induction false} PointerStep(sh: Shape, sizes: seq<nat>, v: nat, i: nat)
    requires ValidShape(sh) && |sizes| == sh.n && v < sh.n && i < |Children(sh, v)|
    ensures Children(sh, v)[i] < sh.n
    ensures Bytes(sizes, Ahead(sh, v, i + 1)) ==
      Bytes(sizes, Ahead(sh, v, i)) + ScatterBytes(sh, sizes, Children(sh, v)[i])
  {
    hide Children, Bytes, Ahead, Walk;
    AheadStep(sh, v, i);
    WalkInRange(sh, Children(sh, v)[i], false);
    BytesConcat(sizes, Ahead(sh, v, i), Walk(sh, Children(sh, v)[i], false));
  }

  /** Fills in the sends to the next `count` children. */
  method FillRequests(tree: Tree, lists: seq<seq<nat>>, myTreeNodeID: nat, rootHost: nat, dataPerProc: nat,
                      nProcs: seq<nat>,
                      first: nat, count: nat, ptr0: nat,
                      destHost: array<nat>, size: array<nat>, buffPtr: array<nat>, ghost sh: Shape)
    returns (ptr: nat)
    requires ScatterSetup(sh, tree, lists, rootHost, nProcs) && myTreeNodeID < sh.n
    requires first + count <= |Children(sh, myTreeNodeID)|
    requires count <= destHost.Length && count <= size.Length && count <= buffPtr.Length
    requires destHost != size && destHost != buffPtr && size != buffPtr
    requires ptr0 == Bytes(Shifted(HostBytes(dataPerProc, nProcs), rootHost), Ahead(sh, myTreeNodeID, first))
    modifies destHost, size, buffPtr
    ensures ptr == Bytes(Shifted(HostBytes(dataPerProc, nProcs), rootHost), Ahead(sh, myTreeNodeID, first + count))
    ensures Requested(sh, Shifted(HostBytes(dataPerProc, nProcs), rootHost), rootHost, myTreeNodeID, first, count,
                      destHost, size, buffPtr)
  {
    hide Walk, Children, Bytes, Ahead, ScatterBytes, ScatterSetup, Shifted, HostBytes, Parent, PartialCount;
    SetupParts(sh, tree, lists, rootHost, dataPerProc, nProcs, myTreeNodeID);
    ghost var sizes, v := Shifted(HostBytes(dataPerProc, nProcs), rootHost), myTreeNodeID;
    ptr := ptr0;
    for node := 0 to count
      invariant ptr == Bytes(sizes, Ahead(sh, v, first + node))
      invariant Requested(sh, sizes, rootHost, v, first, node, destHost, size, buffPtr)
    {
      var destNode := tree.downNodes[myTreeNodeID][first + node];
      PointerStep(sh, sizes, v, first + node);
      SetupParts(sh, tree, lists, rootHost, dataPerProc, nProcs, destNode);
      destHost[node] :=
        if destNode + rootHost >= tree.nNodes then destNode + rootHost - tree.nNodes else destNode + rootHost;
      EmptyBytes(sizes, lists[destNode]);
      size[node] := SubtreeBytes(lists[destNode], 0, 0, rootHost, tree.nNodes, dataPerProc, nProcs);
      buffPtr[node] := ptr;
      ptr := ptr + size[node];
    }
  }

  lemma {:induction false} EmptyBytes(sizes: seq<nat>, nodes: seq<nat>)
    requires InRange(nodes, |sizes|)
    ensures Bytes(sizes, nodes[..0]) == 0 && (|nodes| > 0 ==> Bytes(sizes, nodes[..1]) == sizes[nodes[0]])
  {
    if |nodes| > 0 {
      assert nodes[..1] == [nodes[0]];
    }
  }

  /** `ulm_send_vec`: the posted sends, in order of the arrays. */
  method SendVec(destHost: array<nat>, size: array<nat>, buffPtr: array<nat>,
                 count: nat) returns (ops: seq<Round<Segment>>)
    requires count <= destHost.Length && count <= size.Length && count <= buffPtr.Length
    ensures |ops| == count
    ensures forall i :: 0 <= i < count ==> ops[i] == Round(Some(Half(destHost[i], Segment(buffPtr[i], size[i]))), None)
  {
    ops := [];
    for i := 0 to count
      invariant |ops| == i
      invariant forall j :: 0 <= j < i ==> ops[j] == Round(Some(Half(destHost[j], Segment(buffPtr[j], size[j]))), None)
    {
      ops := ops + [Round(Some(Half(destHost[i], Segment(buffPtr[i], size[i]))), None)];
    }
  }

  method RecvFromParent(tree: Tree, lists: seq<seq<nat>>, myTreeNodeID: nat, rootHost: nat, dataPerProc: nat,
                        nProcs: seq<nat>,
                        myData: nat, ghost sh: Shape)
    returns (op: Round<Segment>)
    requires ScatterSetup(sh, tree, lists, rootHost, nProcs) && 0 < myTreeNodeID < sh.n
    requires myData == Shifted(HostBytes(dataPerProc, nProcs), rootHost)[myTreeNodeID]
    ensures op == RecvOp(sh, Shifted(HostBytes(dataPerProc, nProcs), rootHost), rootHost, myTreeNodeID)
  {
    hide Walk, Children, Bytes, ScatterBytes, IsTree, Parent, PartialCount;
    SetupParts(sh, tree, lists, rootHost, dataPerProc, nProcs, myTreeNodeID);
    var srcHost: int := tree.upNodes[myTreeNodeID] + rootHost;
    if srcHost >= tree.nNodes {
      srcHost := srcHost - tree.nNodes;
    }
    EmptyBytes(Shifted(HostBytes(dataPerProc, nProcs), rootHost), lists[myTreeNodeID]);
    var dataToRecv := SubtreeBytes(lists[myTreeNodeID], 1, myData, rootHost, tree.nNodes, dataPerProc, nProcs);
    op := Round(None, Some(Half(srcHost, Segment(0, dataToRecv))));
  }

  lemma {:induction false} SendOpsAppend(sh: Shape, sizes: seq<nat>, root: nat, v: nat, first: nat,
                                         more: seq<Round<Segment>>)
    requires ValidShape(sh) && |sizes| == sh.n && root < sh.n && v < sh.n && first + |more| <= |Children(sh, v)|
    requires forall i :: 0 <= i < |more| ==> more[i] == SendOp(sh, sizes, root, v, first + i)
    ensures SendOps(sh, sizes, root, v, first + |more|) == SendOps(sh, sizes, root, v, first) + more
  {
    hide SendOp, Children;
  }

  /** One `ulm_send_vec`: sends to the next `count` children. */
  method SendGroup(tree: Tree, lists: seq<seq<nat>>, myTreeNodeID: nat, rootHost: nat, dataPerProc: nat,
                   nProcs: seq<nat>,
                   first: nat, count: nat, ptr0: nat, ops0: seq<Round<Segment>>,
                   destHost: array<nat>, size: array<nat>, buffPtr: array<nat>, ghost sh: Shape)
    returns (ptr: nat, ops: seq<Round<Segment>>)
    requires ScatterSetup(sh, tree, lists, rootHost, nProcs) && myTreeNodeID < sh.n
    requires first + count <= |Children(sh, myTreeNodeID)|
    requires count <= destHost.Length && count <= size.Length && count <= buffPtr.Length
    requires destHost != size && destHost != buffPtr && size != buffPtr
    requires ptr0 == Bytes(Shifted(HostBytes(dataPerProc, nProcs), rootHost), Ahead(sh, myTreeNodeID, first))
    requires ops0 == SendOps(sh, Shifted(HostBytes(dataPerProc, nProcs), rootHost), rootHost, myTreeNodeID, first)
    modifies destHost, size, buffPtr
    ensures ptr == Bytes(Shifted(HostBytes(dataPerProc, nProcs), rootHost), Ahead(sh, myTreeNodeID, first + count))
    ensures ops == SendOps(sh, Shifted(HostBytes(dataPerProc, nProcs), rootHost), rootHost, myTreeNodeID, first + count)
  {
    hide Children, Bytes, Ahead, IsTree, SendOp, SendOps;
    ptr := FillRequests(tree, lists, myTreeNodeID, rootHost, dataPerProc, nProcs, first, count, ptr0, destHost, size,
                        buffPtr, sh);
    var more := SendVec(destHost, size, buffPtr, count);
    SendOpsAppend(sh, Shifted(HostBytes(dataPerProc, nProcs), rootHost), rootHost, myTreeNodeID, first, more);
    ops := ops0 + more;
  }

  lemma {:induction false} SendsBegin(sh: Shape, sizes: seq<nat>, root: nat, v: nat)
    requires ValidShape(sh) && |sizes| == sh.n && root < sh.n && v < sh.n
    ensures Bytes(sizes, Ahead(sh, v, 0)) == sizes[v] && SendOps(sh, sizes, root, v, 0) == []
  {
    assert Ahead(sh, v, 0) == [v];
    assert Bytes(sizes, [v]) == sizes[v];
  }

  /** Where the groups of `order - 1` children begin, and what is left over behind the last. */
  lemma {:induction false} Groups(sh: Shape, v: nat, level: nat)
    requires ValidShape(sh) && v < sh.n && level <= Quotient(|Children(sh, v)|, sh.order - 1)
    ensures var w, d, k := sh.order - 1, |Children(sh, v)|, Quotient(|Children(sh, v)|, sh.order - 1);
      && Multiple(0, w) == 0 && Multiple(level, w) <= d
      && (level < k ==> Multiple(level + 1, w) == Multiple(level, w) + w <= d)
      && (level == k ==> d < Multiple(level, w) + w)
      && (level == k && Multiple(level, w) < d ==> d - Multiple(level, w) == PartialCount(sh, v))
  {
    hide Children, PartialCount, Quotient;
    Leftover(sh, v);
    NextMultiple(level, sh.order - 1);
    if level < Quotient(|Children(sh, v)|, sh.order - 1) {
      MultiplesApart(level, Quotient(|Children(sh, v)|, sh.order - 1), sh.order - 1);
    }
  }

  /** The sends of a node: groups of `order - 1`, then what is left, `nInPartialLevel` messages. */
  method SendToChildren(tree: Tree, lists: seq<seq<nat>>, myTreeNodeID: nat, rootHost: nat, dataPerProc: nat,
                        nProcs: seq<nat>, myData: nat, ghost sh: Shape)
    returns (ops: seq<Round<Segment>>)
    requires ScatterSetup(sh, tree, lists, rootHost, nProcs) && myTreeNodeID < sh.n
    requires myData == Shifted(HostBytes(dataPerProc, nProcs), rootHost)[myTreeNodeID]
    ensures ops == SendOps(sh, Shifted(HostBytes(dataPerProc, nProcs), rootHost), rootHost, myTreeNodeID,
                           |Children(sh, myTreeNodeID)|)
  {
    hide Children, Bytes, Ahead, SendOp, SendOps, ScatterSetup, Walk, PartialCount, ScatterBytes, Parent, Quotient,
      Multiple, HostBytes, Shifted, IsTree;
    SetupParts(sh, tree, lists, rootHost, dataPerProc, nProcs, myTreeNodeID);
    ghost var sizes, v := Shifted(HostBytes(dataPerProc, nProcs), rootHost), myTreeNodeID;
    var order := tree.order;
    var destHost := new nat[order - 1];
    var size := new nat[order - 1];
    var buffPtr := new nat[order - 1];
    SendsBegin(sh, sizes, rootHost, v);
    Groups(sh, v, 0);
    ops := [];
    var ptr, numsent := myData, 0;
    for level := 0 to Quotient(tree.nDownNodes[myTreeNodeID], order - 1)
      invariant numsent == Multiple(level, order - 1) <= |Children(sh, v)|
      invariant ptr == Bytes(sizes, Ahead(sh, v, numsent)) && ops == SendOps(sh, sizes, rootHost, v, numsent)
    {
      Groups(sh, v, level);
      ptr, ops := SendGroup(tree, lists, myTreeNodeID, rootHost, dataPerProc, nProcs, numsent, order - 1, ptr, ops,
                            destHost, size, buffPtr, sh);
      numsent := numsent + (order - 1);
    }
    Groups(sh, v, Quotient(tree.nDownNodes[myTreeNodeID], order - 1));
    if numsent < tree.nDownNodes[myTreeNodeID] {
      ptr, ops := SendGroup(tree, lists, myTreeNodeID, rootHost, dataPerProc, nProcs, numsent,
                            tree.nInPartialLevel[myTreeNodeID], ptr, ops, destHost, size, buffPtr, sh);
    }
  }

  /** `ulm_scatter_interhost` of one host: exactly the rounds of its script in which it does something. */
  method UlmScatterInterhost(tree: Tree, scatterDataNodeList: seq<seq<nat>>, myHostRank: nat, rootHost: nat,
                             dataPerProc: nat, nProcs: seq<nat>, ghost sh: Shape)
    returns (ops: seq<Round<Segment>>)
    requires ScatterSetup(sh, tree, scatterDataNodeList, rootHost, nProcs) && myHostRank < sh.n
    ensures ops == Active(ScatterScript(sh, Shifted(HostBytes(dataPerProc, nProcs), rootHost), rootHost,
                                        ToRelative(myHostRank, rootHost, sh.n)))
  {
    hide Children, Active, SendOps, RecvOp, ScatterScript, ScatterSetup, Walk, PartialCount, ScatterBytes, Parent;
    SetupParts(sh, tree, scatterDataNodeList, rootHost, dataPerProc, nProcs, 0);
    var myTreeNodeID: int := myHostRank - rootHost;
    if myTreeNodeID < 0 {
      myTreeNodeID := myTreeNodeID + tree.nNodes;
    }
    SetupParts(sh, tree, scatterDataNodeList, rootHost, dataPerProc, nProcs, myTreeNodeID);
    ModuloForms(myHostRank, rootHost, sh.n);
    ActiveIs(sh, Shifted(HostBytes(dataPerProc, nProcs), rootHost), rootHost, myTreeNodeID);
    var myData := dataPerProc * nProcs[myHostRank];
    ops := [];
    if tree.nUpNodes[myTreeNodeID] == 1 {
      var op := RecvFromParent(tree, scatterDataNodeList, myTreeNodeID, rootHost, dataPerProc, nProcs, myData, sh);
      ops := [op];
    }
    var sends := SendToChildren(tree, scatterDataNodeList, myTreeNodeID, rootHost, dataPerProc, nProcs, myData, sh);
    ops := ops + sends;
  }
}
