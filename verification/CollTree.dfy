/** `coll_tree.c`: building the tree, and listing its nodes for gather and scatter. */
module CollTree {
  import opened Arith
  import opened Layout
  import opened NaryTree
  import opened TreeWalk

  datatype Tree = Tree(
    nNodes: nat, order: nat, treeDepth: nat, nFullLevels: nat, nNodesInFullLevels: nat,
    upNodes: seq<int>, nUpNodes: seq<nat>, downNodes: seq<seq<nat>>, nDownNodes: seq<nat>,
    nInPartialLevel: seq<nat>, startLevel: seq<nat>)

  /** The number of children that node v has at the last level. */
  ghost function PartialCount(sh: Shape, v: nat): nat
    requires ValidShape(sh)
  {
    var last := Depth(sh) - 1;
    if LevelOf(sh.order, v) < last then ChildHi(sh, v, last) - ChildLo(sh, v, last) else 0
  }

  ghost predicate IsNode(sh: Shape, tree: Tree, v: nat)
    requires ValidShape(sh)
    requires v < |tree.upNodes| && v < |tree.nUpNodes| && v < |tree.downNodes| && v < |tree.nDownNodes|
    requires v < |tree.nInPartialLevel| && v < |tree.startLevel|
  {
    && tree.startLevel[v] == LevelOf(sh.order, v)
    && (if v == 0 then tree.upNodes[v] == -1 && tree.nUpNodes[v] == 0
        else tree.upNodes[v] == Parent(sh.order, v) && tree.nUpNodes[v] == 1)
    && tree.downNodes[v] == Children(sh, v)
    && tree.nDownNodes[v] == |Children(sh, v)|
    && tree.nInPartialLevel[v] == PartialCount(sh, v)
  }

  ghost predicate Sized(tree: Tree, n: nat) {
    |tree.upNodes| == |tree.nUpNodes| == |tree.downNodes| == |tree.nDownNodes| ==
    |tree.nInPartialLevel| == |tree.startLevel| == n
  }

  ghost predicate IsTree(sh: Shape, tree: Tree)
    requires ValidShape(sh)
  {
    && tree.nNodes == sh.n && tree.order == sh.order
    && tree.treeDepth == Depth(sh) && tree.nFullLevels == Depth(sh) - 1
    && tree.nNodesInFullLevels == Power(sh.order, Depth(sh) - 2)
    && Sized(tree, sh.n)
    && (forall v {:trigger IsNode(sh, tree, v)} :: 0 <= v < sh.n ==> IsNode(sh, tree, v))
  }

  /**
   What the fields say of each other: the full levels hold exactly the first `nNodesInFullLevels`
   nodes, down and up links are the same links, and the children at the last level are the last
   `nInPartialLevel` ones.
   */
  lemma {:induction false} FieldsAgree(sh: Shape, tree: Tree, v: nat)
    requires ValidShape(sh) && IsTree(sh, tree) && v < tree.nNodes
    ensures Sized(tree, tree.nNodes)
    ensures tree.nFullLevels == tree.treeDepth - 1 && tree.nNodesInFullLevels <= tree.nNodes
    ensures tree.startLevel[v] < tree.nFullLevels <==> v < tree.nNodesInFullLevels
    ensures forall c: nat :: c < tree.nNodes ==> (c in tree.downNodes[v] <==> tree.upNodes[c] == v)
    ensures |tree.downNodes[v]| == tree.nDownNodes[v] >= tree.nInPartialLevel[v]
    ensures forall j :: 0 <= j < tree.nDownNodes[v] && tree.downNodes[v][j] < tree.nNodes ==>
      (tree.startLevel[tree.downNodes[v][j]] == tree.treeDepth - 1 <==>
       j >= tree.nDownNodes[v] - tree.nInPartialLevel[v])
  {
    hide Children, PartialCount, LevelOf, Parent, Power;
    assert IsNode(sh, tree, v);
    FullNodes(sh, v);
    forall c: nat | c < sh.n
      ensures c in tree.downNodes[v] <==> tree.upNodes[c] == v
    {
      assert IsNode(sh, tree, c);
      ChildrenAreParented(sh, v, c);
    }
    PartialAreLast(sh, v);
    forall j | 0 <= j < tree.nDownNodes[v] && tree.downNodes[v][j] < sh.n
      ensures tree.startLevel[tree.downNodes[v][j]] == LevelOf(sh.order, Children(sh, v)[j])
    {
      assert IsNode(sh, tree, tree.downNodes[v][j]);
    }
  }

  lemma {:induction false} FullNodes(sh: Shape, v: nat)
    requires ValidShape(sh) && v < sh.n
    ensures LevelOf(sh.order, v) < Depth(sh) - 1 <==> v < Power(sh.order, Depth(sh) - 2)
    ensures Power(sh.order, Depth(sh) - 2) <= sh.n
  {
    LevelsFit(sh, v);
    LevelBelow(sh.order, v, Depth(sh) - 1);
  }

  lemma {:induction false} PartialAreLast(sh: Shape, v: nat)
    requires ValidShape(sh) && v < sh.n
    ensures |Children(sh, v)| >= PartialCount(sh, v)
    ensures forall j :: 0 <= j < |Children(sh, v)| ==>
      (LevelOf(sh.order, Children(sh, v)[j]) == Depth(sh) - 1 <==> j >= |Children(sh, v)| - PartialCount(sh, v))
  {
    hide LevelOf, Parent, Power, LevelStart;
    LevelsFit(sh, v);
    var last := Depth(sh) - 1;
    if LevelOf(sh.order, v) < last {
      var kids, lo, hi := ChildrenUpto(sh, v, last - 1), ChildLo(sh, v, last), ChildHi(sh, v, last);
      assert Children(sh, v) == kids + Span(lo, hi);
      forall j | 0 <= j < |Children(sh, v)|
        ensures LevelOf(sh.order, Children(sh, v)[j]) == last <==> j >= |kids|
      {
        if j < |kids| {
          assert kids[j] in kids;
          ChildrenUptoMembers(sh, v, last - 1, kids[j]);
        } else {
          InSpan(sh, v, last, lo + (j - |kids|));
        }
      }
    }
  }

  // ---------------------------------------------------------------- setupNaryTree

  /** The children at one level, stopping at the number of nodes. */
  method ChildrenAtLevel(first: nat, order: nat, nNodes: nat) returns (kids: seq<nat>)
    requires order >= 2
    ensures |kids| <= order - 1
    ensures |kids| == if first >= nNodes then 0 else if first + (order - 1) <= nNodes then order - 1 else nNodes - first
    ensures kids == Span(first, first + |kids|)
  {
    kids := [];
    var tmp := first;
    var j := 0;
    while j < order - 1
      invariant j <= order - 1 && |kids| == j && tmp == first + j && (j > 0 ==> tmp <= nNodes)
      invariant kids == Span(first, first + j)
    {
      if tmp >= nNodes {
        break;
      }
      kids := kids + [tmp];
      tmp := tmp + 1;
      j := j + 1;
    }
  }

  /** The children up to a level are those of the levels before and one more span. */
  lemma {:induction false} UptoStep(sh: Shape, p: nat, level: nat, count: nat)
    requires ValidShape(sh) && LevelOf(sh.order, p) < level
    requires var first := p * (sh.order - 1) + LevelStart(sh.order, level);
      count == if first >= sh.n then 0 else if first + (sh.order - 1) <= sh.n then sh.order - 1 else sh.n - first
    ensures var first := p * (sh.order - 1) + LevelStart(sh.order, level);
      ChildrenUpto(sh, p, level) == ChildrenUpto(sh, p, level - 1) + Span(first, first + count)
    ensures level == Depth(sh) - 1 ==> PartialCount(sh, p) == count
  {
  }

  lemma {:induction false} UptoStart(sh: Shape, p: nat)
    requires ValidShape(sh) && p < sh.n
    ensures LevelOf(sh.order, p) <= Depth(sh) - 1
    ensures ChildrenUpto(sh, p, LevelOf(sh.order, p)) == []
    ensures LevelOf(sh.order, p) == Depth(sh) - 1 ==> PartialCount(sh, p) == 0
  {
    LevelsFit(sh, p);
  }

  /** All children of a node, and how many of them are in the partial last level. */
  method ChildrenOf(node: nat, level: nat, order: nat, nNodes: nat, depth: nat, cumNodes: seq<nat>,
                    partialLastLevel: bool)
    returns (down: seq<nat>, nInPartialLevel: nat)
    requires ValidShape(Shape(nNodes, order)) && node < nNodes && level == LevelOf(order, node)
    requires depth == Depth(Shape(nNodes, order)) && partialLastLevel
    requires |cumNodes| == depth && forall l :: 0 <= l < depth ==> cumNodes[l] == LevelStart(order, l)
    ensures down == Children(Shape(nNodes, order), node)
    ensures nInPartialLevel == PartialCount(Shape(nNodes, order), node)
  {
    ghost var sh := Shape(nNodes, order);
    hide LevelOf, LevelStart, ChildrenUpto, PartialCount, Depth;
    UptoStart(sh, node);
    down := [];
    nInPartialLevel := 0;
    for cLevel := level + 1 to depth
      invariant down == ChildrenUpto(sh, node, cLevel - 1)
      invariant nInPartialLevel == if cLevel == depth then PartialCount(sh, node) else 0
    {
      var tmp := node * (order - 1) + cumNodes[cLevel];
      var kids := ChildrenAtLevel(tmp, order, nNodes);
      UptoStep(sh, node, cLevel, |kids|);
      down := down + kids;
      if cLevel == depth - 1 && partialLastLevel {
        nInPartialLevel := nInPartialLevel + |kids|;
      }
    }
  }

  /** How many levels are needed: the first power of the order above the number of nodes. */
  method MeasureDepth(nNodes: nat, order: nat) returns (depth: nat, nInFullLevels: nat)
    requires nNodes >= 1 && order >= 2
    ensures depth == LevelOf(order, nNodes) && nInFullLevels == Power(order, depth)
  {
    hide Power;
    PowerStep(order, 0);
    var nMax: nat := nNodes;
    nInFullLevels := 1;
    depth := 0;
    while nMax > 0
      invariant nInFullLevels == Power(order, depth) && LevelOf(order, nMax) + depth == LevelOf(order, nNodes)
    {
      QuotientShrinks(nMax, order);
      PowerStep(order, depth);
      nInFullLevels := order * nInFullLevels;
      nMax := Quotient(nMax, order);
      depth := depth + 1;
    }
  }

  method LevelStarts(depth: nat, order: nat) returns (cumNodes: seq<nat>)
    requires depth >= 1 && order >= 2
    ensures |cumNodes| == depth && forall l :: 0 <= l < depth ==> cumNodes[l] == LevelStart(order, l)
  {
    var cum := 1;
    cumNodes := [0];
    for level := 1 to depth
      invariant |cumNodes| == level && cum == Power(order, level - 1)
      invariant forall l :: 0 <= l < level ==> cumNodes[l] == LevelStart(order, l)
    {
      cumNodes := cumNodes + [cum];
      cum := order * cum;
    }
  }

  lemma {:induction false} NextLevel(order: nat, node: nat, level: nat)
    requires order >= 2
    requires if node == 0 then level == 0 else level == LevelOf(order, node - 1)
    ensures LevelOf(order, node) == if node == Power(order, level) then level + 1 else level
  {
    if node > 0 {
      LevelBounds(order, node - 1);
      PowerPositive(order, level);
      LevelIs(order, node, if node == Power(order, level) then level + 1 else level);
    }
  }

  lemma {:induction false} AppendNode(sh: Shape, old_: Tree, tree: Tree, v: nat, up: int, nUp: nat, down: seq<nat>,
                                      partialCount: nat, level: nat)
    requires ValidShape(sh) && v < sh.n && Sized(old_, v)
    requires forall u {:trigger IsNode(sh, old_, u)} :: 0 <= u < v ==> IsNode(sh, old_, u)
    requires tree == old_.(upNodes := old_.upNodes + [up], nUpNodes := old_.nUpNodes + [nUp],
      downNodes := old_.downNodes + [down], nDownNodes := old_.nDownNodes + [|down|],
      nInPartialLevel := old_.nInPartialLevel + [partialCount], startLevel := old_.startLevel + [level])
    requires level == LevelOf(sh.order, v) && down == Children(sh, v) && partialCount == PartialCount(sh, v)
    requires if v == 0 then up == -1 && nUp == 0 else up == Parent(sh.order, v) && nUp == 1
    ensures Sized(tree, v + 1)
    ensures forall u {:trigger IsNode(sh, tree, u)} :: 0 <= u <= v ==> IsNode(sh, tree, u)
  {
    hide Children, PartialCount, LevelOf, Parent;
    forall u | 0 <= u <= v
      ensures IsNode(sh, tree, u)
    {
      if u < v {
        assert IsNode(sh, old_, u);
      }
    }
  }

  /** The depth, and the sizes of the levels, without any nodes yet. */
  method TreeHeader(nNodes: nat, order: nat) returns (tree: Tree, partialLastLevel: bool)
    requires nNodes >= 1 && order >= 2
    ensures tree == Tree(nNodes, order, Depth(Shape(nNodes, order)), Depth(Shape(nNodes, order)) - 1,
                         Power(order, Depth(Shape(nNodes, order)) - 2), [], [], [], [], [], [])
    ensures partialLastLevel
  {
    hide Power;
    var depth, nInFullLevels := MeasureDepth(nNodes, order);
    LevelBounds(order, nNodes);
    PowerStep(order, depth - 1);
    hide LevelOf;
    tree := Tree(nNodes, order, 0, depth, nInFullLevels, [], [], [], [], [], []);
    partialLastLevel := false;
    if nInFullLevels > nNodes {
      DivisionIs(nInFullLevels, order, Power(order, depth - 1), 0);
      tree := tree.(nNodesInFullLevels := Quotient(tree.nNodesInFullLevels, order));
      depth := depth + 1;
      partialLastLevel := true;
    }
    tree := tree.(treeDepth := depth);
  }

  /** One turn of the loop over the nodes. */
  method AddNode(tree0: Tree, node: nat, level: nat, cumNodes: seq<nat>, partialLastLevel: bool, ghost sh: Shape)
    returns (tree: Tree)
    requires ValidShape(sh) && node < sh.n && level == LevelOf(sh.order, node)
    requires tree0.nNodes == sh.n && tree0.order == sh.order && tree0.treeDepth == Depth(sh) && partialLastLevel
    requires |cumNodes| == Depth(sh) && forall l :: 0 <= l < |cumNodes| ==> cumNodes[l] == LevelStart(sh.order, l)
    requires Sized(tree0, node)
    requires forall u {:trigger IsNode(sh, tree0, u)} :: 0 <= u < node ==> IsNode(sh, tree0, u)
    ensures tree == tree0.(upNodes := tree.upNodes, nUpNodes := tree.nUpNodes, downNodes := tree.downNodes,
      nDownNodes := tree.nDownNodes, nInPartialLevel := tree.nInPartialLevel, startLevel := tree.startLevel)
    ensures Sized(tree, node + 1)
    ensures forall u {:trigger IsNode(sh, tree, u)} :: 0 <= u <= node ==> IsNode(sh, tree, u)
  {
    hide LevelOf, LevelStart, Children, PartialCount, IsNode, Parent, Depth, Quotient;
    var up: int, nUp: nat := -1, 0;
    LevelsOfNode(sh, node);
    if level != 0 {
      up := Quotient(node - cumNodes[level], tree0.order - 1);
      nUp := 1;
    }
    var down, nInPartialLevel :=
      ChildrenOf(node, level, tree0.order, tree0.nNodes, tree0.treeDepth, cumNodes, partialLastLevel);
    tree := tree0.(upNodes := tree0.upNodes + [up], nUpNodes := tree0.nUpNodes + [nUp],
      downNodes := tree0.downNodes + [down], nDownNodes := tree0.nDownNodes + [|down|],
      nInPartialLevel := tree0.nInPartialLevel + [nInPartialLevel], startLevel := tree0.startLevel + [level]);
    AppendNode(sh, tree0, tree, node, up, nUp, down, nInPartialLevel, level);
  }

  method SetupNaryTree(nNodes: nat, order: nat) returns (tree: Tree)
    requires nNodes >= 1 && order >= 2
    ensures IsTree(Shape(nNodes, order), tree)
  {
    ghost var sh := Shape(nNodes, order);
    var partialLastLevel;
    tree, partialLastLevel := TreeHeader(nNodes, order);
    var cumNodes := LevelStarts(tree.treeDepth, order);
    var level := 0;
    var cumNInLevel := 1;
    ghost var header := tree;
    hide Power, LevelOf, LevelStart, IsNode, Depth;
    PowerStep(order, 0);
    for node := 0 to nNodes
      invariant cumNInLevel == Power(order, level)
      invariant if node == 0 then level == 0 else level == LevelOf(order, node - 1)
      invariant tree == header.(upNodes := tree.upNodes, nUpNodes := tree.nUpNodes, downNodes := tree.downNodes,
                                nDownNodes := tree.nDownNodes, nInPartialLevel := tree.nInPartialLevel,
                                startLevel := tree.startLevel)
      invariant Sized(tree, node)
      invariant forall u {:trigger IsNode(sh, tree, u)} :: 0 <= u < node ==> IsNode(sh, tree, u)
    {
      NextLevel(order, node, level);
      PowerStep(order, level);
      if node == cumNInLevel {
        level := level + 1;
        cumNInLevel := order * cumNInLevel;
      }
      tree := AddNode(tree, node, level, cumNodes, partialLastLevel, sh);
    }
  }

  /** The facts about a node's level that the parent computation rests on. */
  lemma {:induction false} LevelsOfNode(sh: Shape, v: nat)
    requires ValidShape(sh) && v < sh.n
    ensures LevelOf(sh.order, v) < Depth(sh)
    ensures LevelOf(sh.order, v) == 0 <==> v == 0
    ensures v > 0 ==>
      LevelStart(sh.order, LevelOf(sh.order, v)) <= v &&
      Parent(sh.order, v) == Quotient(v - LevelStart(sh.order, LevelOf(sh.order, v)), sh.order - 1)
  {
    LevelsFit(sh, v);
    LevelBounds(sh.order, v);
  }

  /** The `(order - 1) * (depth - (level + 1))` entries allocated for a node's children suffice. */
  lemma {:induction false} AllocationSuffices(sh: Shape, p: nat, level: nat)
    requires ValidShape(sh) && LevelOf(sh.order, p) <= level
    ensures |ChildrenUpto(sh, p, level)| <= (sh.order - 1) * (level - LevelOf(sh.order, p))
    decreases level
  {
    var l := LevelOf(sh.order, p);
    if l < level {
      AllocationSuffices(sh, p, level - 1);
      assert (sh.order - 1) * (level - l) == (sh.order - 1) * (level - 1 - l) + (sh.order - 1);
    }
  }

  // ---------------------------------------------------------------- traversals

  lemma {:induction false} UptoIsPrefix(sh: Shape, p: nat, level: nat, top: nat)
    requires ValidShape(sh) && level <= top
    ensures ChildrenUpto(sh, p, level) <= ChildrenUpto(sh, p, top)
    decreases top
  {
    if level < top {
      UptoIsPrefix(sh, p, level, top - 1);
    }
  }

  /** Where the children of one level are found among all children. */
  lemma {:induction false} LevelSlice(sh: Shape, p: nat, level: nat)
    requires ValidShape(sh) && LevelOf(sh.order, p) < level <= Depth(sh) - 1
    ensures var lo, hi := |ChildrenUpto(sh, p, level - 1)|, |ChildrenUpto(sh, p, level)|;
      && lo <= hi <= |Children(sh, p)|
      && hi - lo == ChildHi(sh, p, level) - ChildLo(sh, p, level)
      && (level < Depth(sh) - 1 ==> hi - lo == sh.order - 1)
      && (level == Depth(sh) - 1 ==> hi - lo == PartialCount(sh, p) && hi == |Children(sh, p)|)
      && forall i :: lo <= i < hi ==> Children(sh, p)[i] == ChildLo(sh, p, level) + (i - lo)
  {
    UptoIsPrefix(sh, p, level, Depth(sh) - 1);
    if level < Depth(sh) - 1 {
      FullLevel(sh, p, level);
    }
  }

  ghost predicate Extends(now: seq<nat>, before: seq<nat>, len0: nat, len: nat, more: seq<nat>, fill: bool)
    requires |now| == |before| && len0 <= len && (fill ==> len <= |now|)
  {
    && len == len0 + |more|
    && (fill ==> now[..len] == before[..len0] + more)
    && (!fill ==> now == before)
  }

  lemma {:induction false} ExtendsTwice(a: seq<nat>, b: seq<nat>, c: seq<nat>, l0: nat, l1: nat, l2: nat,
                                        x: seq<nat>, y: seq<nat>, fill: bool)
    requires |a| == |b| == |c| && l0 <= l1 <= l2 && (fill ==> l2 <= |a|)
    requires Extends(b, a, l0, l1, x, fill) && Extends(c, b, l1, l2, y, fill)
    ensures Extends(c, a, l0, l2, x + y, fill)
  {
  }

  method AddRoot(rootNode: nat, nodeList: array<nat>, len0: nat, fillInNodeList: bool) returns (len: nat)
    requires fillInNodeList ==> len0 < nodeList.Length
    modifies nodeList
    ensures len == len0 + 1
    ensures Extends(nodeList[..], old(nodeList[..]), len0, len, [rootNode], fillInNodeList)
  {
    if fillInNodeList {
      nodeList[len0] := rootNode;
    }
    len := len0 + 1;
  }

  lemma {:induction false} SpanAppend(sh: Shape, a: nat, b: nat, deepFirst: bool)
    requires ValidShape(sh) && a <= b < sh.n
    ensures WalkSpan(sh, a, b + 1, deepFirst) == WalkSpan(sh, a, b, deepFirst) + Walk(sh, b, deepFirst)
    decreases b - a
  {
    if a < b {
      SpanAppend(sh, a + 1, b, deepFirst);
    } else {
      assert WalkSpan(sh, b + 1, b + 1, deepFirst) == [];
    }
  }

  lemma {:induction false} SpanSplit(sh: Shape, a: nat, b: nat, c: nat, deepFirst: bool)
    requires ValidShape(sh) && a <= b <= c <= sh.n
    ensures |WalkSpan(sh, a, b, deepFirst)| <= |WalkSpan(sh, a, c, deepFirst)|
    decreases c
  {
    if b < c {
      SpanSplit(sh, a, b, c - 1, deepFirst);
      SpanAppend(sh, a, c - 1, deepFirst);
    }
  }

  /** Visits children number `from` to `to - 1` of a node; their subtrees are one span. */
  method GatherRange(tree: Tree, rootNode: nat, from: nat, to: nat, nodeList: array<nat>, len0: nat,
                     fillInNodeList: bool,
                     ghost sh: Shape, ghost lo: nat)
    returns (len: nat)
    requires ValidShape(sh) && IsTree(sh, tree) && rootNode < sh.n
    requires from <= to <= |Children(sh, rootNode)| && rootNode < lo && (from < to ==> lo + (to - from) <= sh.n)
    requires forall i :: from <= i < to ==> Children(sh, rootNode)[i] == lo + (i - from)
    requires fillInNodeList ==> len0 + |WalkSpan(sh, lo, lo + (to - from), true)| <= nodeList.Length
    modifies nodeList
    ensures len == len0 + |WalkSpan(sh, lo, lo + (to - from), true)|
    ensures Extends(nodeList[..], old(nodeList[..]), len0, len, WalkSpan(sh, lo, lo + (to - from), true),
                    fillInNodeList)
    decreases sh.n - rootNode, 0
  {
    len := len0;
    ghost var before := nodeList[..];
    assert IsNode(sh, tree, rootNode);
    assert WalkSpan(sh, lo, lo, true) == [];
    hide Walk, WalkSpan, Children, IsTree, IsNode;
    for i := from to to
      invariant len == len0 + |WalkSpan(sh, lo, lo + (i - from), true)|
      invariant fillInNodeList ==> len <= nodeList.Length
      invariant Extends(nodeList[..], before, len0, len, WalkSpan(sh, lo, lo + (i - from), true), fillInNodeList)
    {
      ghost var c := lo + (i - from);
      SpanAppend(sh, lo, c, true);
      SpanSplit(sh, lo, c + 1, lo + (to - from), true);
      ghost var middle, len1 := nodeList[..], len;
      len := GetGatherNodeOrder(tree, tree.downNodes[rootNode][i], nodeList, len, fillInNodeList, sh);
      ExtendsTwice(before, middle, nodeList[..], len0, len1, len, WalkSpan(sh, lo, c, true), Walk(sh, c, true),
                   fillInNodeList);
    }
  }

  /** What is left of the walk of v below a level: nothing, or one span and the levels before it. */
  lemma {:induction false} LevelsLeft(sh: Shape, v: nat, level: nat)
    requires ValidShape(sh) && v < sh.n && LevelOf(sh.order, v) <= level <= Depth(sh) - 1
    ensures level == LevelOf(sh.order, v) ==> WalkLevels(sh, v, level, true) == [] && |ChildrenUpto(sh, v, level)| == 0
    ensures level > LevelOf(sh.order, v) ==>
      && v < ChildLo(sh, v, level)
      && (ChildLo(sh, v, level) < ChildHi(sh, v, level) ==> ChildHi(sh, v, level) <= sh.n)
      && WalkLevels(sh, v, level, true) ==
         WalkSpan(sh, ChildLo(sh, v, level), ChildHi(sh, v, level), true) + WalkLevels(sh, v, level - 1, true)
      && (ChildLo(sh, v, level) == ChildHi(sh, v, level) ==>
            WalkLevels(sh, v, level, true) == WalkLevels(sh, v, level - 1, true))
  {
    if level > LevelOf(sh.order, v) {
      InSpan(sh, v, level, 0);
      var lo, hi := ChildLo(sh, v, level), ChildHi(sh, v, level);
      hide ChildLo, ChildHi;
      assert lo == hi ==> WalkSpan(sh, lo, hi, true) == [];
    }
  }

  /** One group of children: those of the given level, found `behind` entries from the end. */
  method GatherLevel(tree: Tree, rootNode: nat, startIndex: nat, count: nat, nodeList: array<nat>, len0: nat,
                     fillInNodeList: bool,
                     ghost sh: Shape, ghost level: nat, ghost before: seq<nat>, ghost first: nat, ghost done: seq<nat>)
    returns (len: nat, ghost done': seq<nat>)
    requires ValidShape(sh) && IsTree(sh, tree) && rootNode < sh.n
    requires LevelOf(sh.order, rootNode) < level <= Depth(sh) - 1
    requires startIndex == |ChildrenUpto(sh, rootNode, level - 1)|
    requires startIndex + count == |ChildrenUpto(sh, rootNode, level)|
    requires done + WalkLevels(sh, rootNode, level, true) == Walk(sh, rootNode, true)
    requires |before| == nodeList.Length && len0 == first + |done|
    requires fillInNodeList ==> first + |Walk(sh, rootNode, true)| <= nodeList.Length && len0 <= nodeList.Length
    requires Extends(nodeList[..], before, first, len0, done, fillInNodeList)
    modifies nodeList
    ensures done' + WalkLevels(sh, rootNode, level - 1, true) == Walk(sh, rootNode, true)
    ensures len == first + |done'| && (fillInNodeList ==> len <= nodeList.Length)
    ensures Extends(nodeList[..], before, first, len, done', fillInNodeList)
    decreases sh.n - rootNode, 1
  {
    hide Walk, WalkSpan, WalkLevels, Children, ChildrenUpto, IsTree, Depth, LevelOf, ChildLo, ChildHi, Extends;
    LevelSlice(sh, rootNode, level);
    LevelsLeft(sh, rootNode, level);
    ghost var lo := ChildLo(sh, rootNode, level);
    ghost var span := WalkSpan(sh, lo, lo + count, true);
    done' := done + span;
    assert done' + WalkLevels(sh, rootNode, level - 1, true) == done + WalkLevels(sh, rootNode, level, true);
    ghost var middle := nodeList[..];
    len := GatherRange(tree, rootNode, startIndex, startIndex + count, nodeList, len0, fillInNodeList, sh, lo);
    ExtendsTwice(before, middle, nodeList[..], first, len0, len, done, span, fillInNodeList);
  }

  lemma {:induction false} GatherParts(sh: Shape, tree: Tree, v: nat)
    requires ValidShape(sh) && IsTree(sh, tree) && v < sh.n
    ensures Sized(tree, sh.n) && tree.order == sh.order && LevelOf(sh.order, v) <= Depth(sh) - 1
    ensures tree.nDownNodes[v] == |ChildrenUpto(sh, v, Depth(sh) - 1)| && tree.nInPartialLevel[v] == PartialCount(sh, v)
    ensures LevelOf(sh.order, v) == Depth(sh) - 1 ==> PartialCount(sh, v) == 0
    ensures Walk(sh, v, true) == [v] + WalkLevels(sh, v, Depth(sh) - 1, true)
  {
    assert IsNode(sh, tree, v);
    LevelsFit(sh, v);
  }

  /** `getGatherNodeOrder` appends the gather order of the subtree to the list. */
  method GetGatherNodeOrder(tree: Tree, rootNode: nat, nodeList: array<nat>, len0: nat, fillInNodeList: bool,
                            ghost sh: Shape)
    returns (len: nat)
    requires ValidShape(sh) && IsTree(sh, tree) && rootNode < sh.n
    requires fillInNodeList ==> len0 + |Walk(sh, rootNode, true)| <= nodeList.Length
    modifies nodeList
    ensures len == len0 + |Walk(sh, rootNode, true)|
    ensures Extends(nodeList[..], old(nodeList[..]), len0, len, Walk(sh, rootNode, true), fillInNodeList)
    decreases sh.n - rootNode, 2
  {
    hide Walk, WalkSpan, WalkLevels, IsTree, Depth, LevelOf, ChildLo, ChildHi, Children, ChildrenUpto, PartialCount,
         Extends;
    ghost var before := nodeList[..];
    GatherParts(sh, tree, rootNode);
    len := AddRoot(rootNode, nodeList, len0, fillInNodeList);
    var nInPartialLevel := tree.nInPartialLevel[rootNode];
    var nDownNodes := tree.nDownNodes[rootNode];
    var cnt := 0;
    ghost var base, level, done := LevelOf(sh.order, rootNode), Depth(sh) - 1, [rootNode];
    if level > base {
      LevelSlice(sh, rootNode, level);
      LevelsLeft(sh, rootNode, level);
    }
    if nInPartialLevel > 0 {
      var startIndex := nDownNodes - nInPartialLevel;
      len, done := GatherLevel(tree, rootNode, startIndex, nInPartialLevel, nodeList, len, fillInNodeList, sh, level,
                               before, len0, done);
      cnt := cnt + nInPartialLevel;
    }
    if level > base {
      level := level - 1;
    }
    while cnt < tree.nDownNodes[rootNode]
      invariant base <= level <= Depth(sh) - 1 && (level == Depth(sh) - 1 ==> level == base)
      invariant cnt == nDownNodes - |ChildrenUpto(sh, rootNode, level)|
      invariant done + WalkLevels(sh, rootNode, level, true) == Walk(sh, rootNode, true)
      invariant len == len0 + |done| && (fillInNodeList ==> len <= nodeList.Length)
      invariant Extends(nodeList[..], before, len0, len, done, fillInNodeList)
      decreases level
    {
      LevelsLeft(sh, rootNode, level);
      LevelSlice(sh, rootNode, level);
      var startIndex := nDownNodes - cnt - (tree.order - 1);
      len, done := GatherLevel(tree, rootNode, startIndex, tree.order - 1, nodeList, len, fillInNodeList, sh, level,
                               before, len0, done);
      cnt := cnt + (tree.order - 1);
      level := level - 1;
    }
    NothingLeft(sh, rootNode, level);
    assert done + [] == done;
  }

  lemma {:induction false} NothingLeft(sh: Shape, v: nat, level: nat)
    requires ValidShape(sh) && v < sh.n && LevelOf(sh.order, v) <= level <= Depth(sh) - 1
    requires |ChildrenUpto(sh, v, level)| == 0 && (level == Depth(sh) - 1 ==> level == LevelOf(sh.order, v))
    ensures WalkLevels(sh, v, level, true) == []
  {
    if level > LevelOf(sh.order, v) {
      LevelSlice(sh, v, level);
    }
  }

  /** The subtrees of a list of nodes, one after the other. */
  ghost function WalkKids(sh: Shape, kids: seq<nat>): seq<nat>
    requires ValidShape(sh) && forall i :: 0 <= i < |kids| ==> kids[i] < sh.n
  {
    if kids == [] then [] else WalkKids(sh, kids[..|kids| - 1]) + Walk(sh, kids[|kids| - 1], false)
  }

  lemma {:induction false} KidsAppendSpan(sh: Shape, kids: seq<nat>, a: nat, b: nat)
    requires ValidShape(sh) && a <= b && (a < b ==> b <= sh.n) && forall i :: 0 <= i < |kids| ==> kids[i] < sh.n
    ensures WalkKids(sh, kids + Span(a, b)) == WalkKids(sh, kids) + WalkSpan(sh, a, b, false)
    decreases b - a
  {
    hide Walk, WalkSpan;
    if a == b {
      EmptySpan(sh, a, false);
      assert kids + Span(a, b) == kids;
    } else {
      KidsAppendSpan(sh, kids, a, b - 1);
      SpanAppend(sh, a, b - 1, false);
      var all := kids + Span(a, b);
      assert all[..|all| - 1] == kids + Span(a, b - 1) && all[|all| - 1] == b - 1;
    }
  }

  /** The scatter order visits the children in the order in which they are stored. */
  lemma {:induction false} LevelsAreKids(sh: Shape, v: nat, level: nat)
    requires ValidShape(sh) && v < sh.n
    ensures forall i :: 0 <= i < |ChildrenUpto(sh, v, level)| ==> v < ChildrenUpto(sh, v, level)[i] < sh.n
    ensures WalkLevels(sh, v, level, false) == WalkKids(sh, ChildrenUpto(sh, v, level))
    decreases level
  {
    hide LevelOf, Walk, WalkSpan;
    ChildrenIncrease(sh, v, level);
    if level > LevelOf(sh.order, v) {
      LevelsAreKids(sh, v, level - 1);
      InSpan(sh, v, level, 0);
      KidsAppendSpan(sh, ChildrenUpto(sh, v, level - 1), ChildLo(sh, v, level), ChildHi(sh, v, level));
    }
  }

  lemma {:induction false} KidsStep(sh: Shape, kids: seq<nat>, i: nat)
    requires ValidShape(sh) && i < |kids| && forall j :: 0 <= j < |kids| ==> kids[j] < sh.n
    ensures WalkKids(sh, kids[..0]) == []
    ensures WalkKids(sh, kids[..i + 1]) == WalkKids(sh, kids[..i]) + Walk(sh, kids[i], false)
    ensures |WalkKids(sh, kids[..i + 1])| <= |WalkKids(sh, kids)|
    decreases |kids| - i
  {
    assert kids[..i + 1][..i] == kids[..i];
    if i + 1 == |kids| {
      assert kids[..i + 1] == kids;
    } else {
      KidsStep(sh, kids, i + 1);
    }
  }

  lemma {:induction false} ScatterParts(sh: Shape, tree: Tree, v: nat)
    requires ValidShape(sh) && IsTree(sh, tree) && v < sh.n
    ensures Sized(tree, sh.n) && tree.downNodes[v] == Children(sh, v) && tree.nDownNodes[v] == |Children(sh, v)|
    ensures forall i :: 0 <= i < |Children(sh, v)| ==> v < Children(sh, v)[i] < sh.n
    ensures Walk(sh, v, false) == [v] + WalkKids(sh, Children(sh, v)) && WalkKids(sh, Children(sh, v)[..0]) == []
  {
    hide ChildrenUpto, WalkLevels, Depth;
    assert IsNode(sh, tree, v);
    LevelsAreKids(sh, v, Depth(sh) - 1);
  }

  /** `getScatterNodeOrder` appends the scatter order of the subtree to the list. */
  method GetScatterNodeOrder(tree: Tree, rootNode: nat, nodeList: array<nat>, len0: nat, fillInNodeList: bool,
                             ghost sh: Shape)
    returns (len: nat)
    requires ValidShape(sh) && IsTree(sh, tree) && rootNode < sh.n
    requires fillInNodeList ==> len0 + |Walk(sh, rootNode, false)| <= nodeList.Length
    modifies nodeList
    ensures len == len0 + |Walk(sh, rootNode, false)|
    ensures Extends(nodeList[..], old(nodeList[..]), len0, len, Walk(sh, rootNode, false), fillInNodeList)
    decreases sh.n - rootNode
  {
    hide Walk, WalkKids, Children, IsTree, Extends;
    ghost var before := nodeList[..];
    ScatterParts(sh, tree, rootNode);
    len := AddRoot(rootNode, nodeList, len0, fillInNodeList);
    ghost var kids := Children(sh, rootNode);
    ghost var done := [rootNode];
    for node := 0 to tree.nDownNodes[rootNode]
      invariant done == [rootNode] + WalkKids(sh, kids[..node])
      invariant len == len0 + |done| && (fillInNodeList ==> len <= nodeList.Length)
      invariant Extends(nodeList[..], before, len0, len, done, fillInNodeList)
    {
      KidsStep(sh, kids, node);
      ghost var middle, len1 := nodeList[..], len;
      len := GetScatterNodeOrder(tree, tree.downNodes[rootNode][node], nodeList, len, fillInNodeList, sh);
      ExtendsTwice(before, middle, nodeList[..], len0, len1, len, done, Walk(sh, kids[node], false), fillInNodeList);
      done := done + Walk(sh, kids[node], false);
    }
    assert kids[..|kids|] == kids;
  }
}
