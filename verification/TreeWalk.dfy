/** The children of the nodes of a tree, and the orders in which the data of its nodes is laid out. */
module TreeWalk {
  import opened Layout
  import opened NaryTree

  datatype Shape = Shape(n: nat, order: nat)

  ghost predicate ValidShape(sh: Shape) { sh.n >= 1 && sh.order >= 2 }

  /** `treeDepth`: the last of its levels is the partial one. */
  ghost function Depth(sh: Shape): (d: nat)
    requires ValidShape(sh)
    ensures d >= 2
  {
    LevelBounds(sh.order, sh.n);
    LevelOf(sh.order, sh.n) + 1
  }

  lemma {:induction false} LevelsFit(sh: Shape, v: nat)
    requires ValidShape(sh) && v < sh.n
    ensures LevelOf(sh.order, v) <= Depth(sh) - 1
    ensures Power(sh.order, Depth(sh) - 2) <= sh.n < Power(sh.order, Depth(sh) - 1)
  {
    LevelBounds(sh.order, sh.n);
    LevelBelow(sh.order, v, Depth(sh));
  }

  ghost function ChildLo(sh: Shape, p: nat, level: nat): nat
    requires ValidShape(sh)
  {
    FirstChild(sh.order, p, level)
  }

  ghost function ChildHi(sh: Shape, p: nat, level: nat): (hi: nat)
    requires ValidShape(sh)
    ensures ChildLo(sh, p, level) <= hi <= ChildLo(sh, p, level) + (sh.order - 1)
  {
    var lo := ChildLo(sh, p, level);
    if lo >= sh.n then lo else if lo + (sh.order - 1) <= sh.n then lo + (sh.order - 1) else sh.n
  }

  /** The children that node p gets at levels up to the given one, in order of level. */
  ghost function ChildrenUpto(sh: Shape, p: nat, level: nat): seq<nat>
    requires ValidShape(sh)
    decreases level
  {
    if level <= LevelOf(sh.order, p) then []
    else ChildrenUpto(sh, p, level - 1) + Span(ChildLo(sh, p, level), ChildHi(sh, p, level))
  }

  ghost function Children(sh: Shape, p: nat): seq<nat>
    requires ValidShape(sh)
  {
    ChildrenUpto(sh, p, Depth(sh) - 1)
  }

  /** Node c is a child of p exactly if it lies in p's span of c's level. */
  lemma {:induction false} InSpan(sh: Shape, p: nat, level: nat, c: nat)
    requires ValidShape(sh) && LevelOf(sh.order, p) < level
    ensures ChildLo(sh, p, level) <= c < ChildHi(sh, p, level) <==>
      0 < c < sh.n && Parent(sh.order, c) == p && LevelOf(sh.order, c) == level
    ensures p < ChildLo(sh, p, level)
  {
    LevelBelow(sh.order, p, level);
    ChildrenInLevel(sh.order, p, level);
    if ChildLo(sh, p, level) <= c < ChildHi(sh, p, level) {
      ChildOfParent(sh.order, p, level, c);
    }
    if 0 < c < sh.n && Parent(sh.order, c) == p {
      ParentOfChild(sh.order, c);
    }
  }

  lemma {:induction false} ChildrenUptoMembers(sh: Shape, p: nat, level: nat, c: nat)
    requires ValidShape(sh)
    ensures c in ChildrenUpto(sh, p, level) <==>
      0 < c < sh.n && Parent(sh.order, c) == p && LevelOf(sh.order, c) <= level
    decreases level
  {
    if level <= LevelOf(sh.order, p) {
      if c > 0 {
        ParentOfChild(sh.order, c);
      }
    } else {
      ChildrenUptoMembers(sh, p, level - 1, c);
      InSpan(sh, p, level, c);
      var lo, hi := ChildLo(sh, p, level), ChildHi(sh, p, level);
      assert lo <= c < hi ==> Span(lo, hi)[c - lo] == c;
    }
  }

  /** The children of p are exactly the nodes whose parent is p. */
  lemma {:induction false} ChildrenAreParented(sh: Shape, p: nat, c: nat)
    requires ValidShape(sh)
    ensures c in Children(sh, p) <==> 0 < c < sh.n && Parent(sh.order, c) == p
    ensures 0 < c < sh.n ==> Parent(sh.order, c) < c
  {
    ChildrenUptoMembers(sh, p, Depth(sh) - 1, c);
    if c < sh.n {
      LevelsFit(sh, c);
    }
    if c > 0 {
      ParentOfChild(sh.order, c);
    }
  }

  ghost predicate Increasing(s: seq<nat>) {
    forall i, j :: 0 <= i < j < |s| ==> s[i] < s[j]
  }

  lemma {:induction false} ChildrenIncrease(sh: Shape, p: nat, level: nat)
    requires ValidShape(sh)
    ensures Increasing(ChildrenUpto(sh, p, level))
    ensures forall i :: 0 <= i < |ChildrenUpto(sh, p, level)| ==>
      p < ChildrenUpto(sh, p, level)[i] < LevelStart(sh.order, level + 1) && ChildrenUpto(sh, p, level)[i] < sh.n
    decreases level
  {
    if level > LevelOf(sh.order, p) {
      ChildrenIncrease(sh, p, level - 1);
      LevelBelow(sh.order, p, level);
      ChildrenInLevel(sh.order, p, level);
      PowerPositive(sh.order, level - 1);
    }
  }

  /** At every level but the last a node gets all of its `order - 1` children. */
  lemma {:induction false} FullLevel(sh: Shape, p: nat, level: nat)
    requires ValidShape(sh) && LevelOf(sh.order, p) < level < Depth(sh) - 1
    ensures ChildHi(sh, p, level) == ChildLo(sh, p, level) + (sh.order - 1)
  {
    LevelBelow(sh.order, p, level);
    ChildrenInLevel(sh.order, p, level);
    LevelsFit(sh, 0);
    PowerMonotone(sh.order, level, Depth(sh) - 2);
  }

  /** A node of the last level has no children. */
  lemma {:induction false} LastLevelIsLeaf(sh: Shape, p: nat)
    requires ValidShape(sh) && LevelOf(sh.order, p) >= Depth(sh) - 1
    ensures Children(sh, p) == []
  {
  }

  // ---------------------------------------------------------------- traversals

  /**
   The nodes of the subtree under v as a traversal lists them: v, then the subtrees of its
   children, the children of one level in ascending order.  With `deepFirst` the levels come
   from the last one up (the gather order), otherwise from the first one down (the scatter order).
   */
  ghost function Walk(sh: Shape, v: nat, deepFirst: bool): seq<nat>
    requires ValidShape(sh) && v < sh.n
    decreases sh.n - v, 2, 0
  {
    [v] + WalkLevels(sh, v, Depth(sh) - 1, deepFirst)
  }

  ghost function WalkLevels(sh: Shape, v: nat, level: nat, deepFirst: bool): seq<nat>
    requires ValidShape(sh) && v < sh.n
    decreases sh.n - v, 1, level
  {
    if level <= LevelOf(sh.order, v) then []
    else
      InSpan(sh, v, level, 0);
      var span := WalkSpan(sh, ChildLo(sh, v, level), ChildHi(sh, v, level), deepFirst);
      if deepFirst then span + WalkLevels(sh, v, level - 1, deepFirst)
      else WalkLevels(sh, v, level - 1, deepFirst) + span
  }

  /** The subtrees of nodes a to b-1, one after the other. */
  ghost function WalkSpan(sh: Shape, a: nat, b: nat, deepFirst: bool): seq<nat>
    requires ValidShape(sh) && (a < b ==> b <= sh.n)
    decreases if a < sh.n then sh.n - a else 0, 3, 0
  {
    if a >= b then [] else Walk(sh, a, deepFirst) + WalkSpan(sh, a + 1, b, deepFirst)
  }

  lemma {:induction false} EmptySpan(sh: Shape, a: nat, deepFirst: bool)
    requires ValidShape(sh)
    ensures WalkSpan(sh, a, a, deepFirst) == []
  {
  }

  ghost predicate ChildOf(order: nat, c: nat, p: nat)
    requires order >= 2
  {
    c > 0 && Parent(order, c) == p
  }

  /** Is x in the subtree under v? */
  ghost predicate Under(order: nat, v: nat, x: nat)
    requires order >= 2
    decreases x
  {
    x == v || (x > v && (ParentOfChild(order, x); Under(order, v, Parent(order, x))))
  }

  /** The child of v whose subtree holds x. */
  ghost function Branch(order: nat, v: nat, x: nat): (c: nat)
    requires order >= 2 && Under(order, v, x) && x != v
    ensures 0 < c <= x && Parent(order, c) == v && Under(order, c, x)
    decreases x
  {
    ParentOfChild(order, x);
    var p := Parent(order, x);
    if p == v then x else Branch(order, v, p)
  }

  lemma {:induction false} BranchIs(order: nat, v: nat, c: nat, x: nat)
    requires order >= 2 && c > 0 && Parent(order, c) == v
    ensures Under(order, c, x) <==> Under(order, v, x) && x != v && Branch(order, v, x) == c
    decreases x
  {
    ParentOfChild(order, c);
    if x > c {
      ParentOfChild(order, x);
      BranchIs(order, v, c, Parent(order, x));
    }
  }

  lemma {:induction false} WalkMembers(sh: Shape, v: nat, deepFirst: bool, x: nat)
    requires ValidShape(sh) && v < sh.n
    ensures x in Walk(sh, v, deepFirst) <==> x < sh.n && Under(sh.order, v, x)
    decreases sh.n - v, 2, 0
  {
    LevelsMembers(sh, v, Depth(sh) - 1, deepFirst, x);
    if x < sh.n && x != v && Under(sh.order, v, x) {
      LevelsFit(sh, Branch(sh.order, v, x));
    }
  }

  lemma {:induction false} LevelsMembers(sh: Shape, v: nat, level: nat, deepFirst: bool, x: nat)
    requires ValidShape(sh) && v < sh.n
    ensures x in WalkLevels(sh, v, level, deepFirst) <==>
      x < sh.n && x != v && Under(sh.order, v, x) && LevelOf(sh.order, Branch(sh.order, v, x)) <= level
    decreases sh.n - v, 1, level
  {
    var below := x < sh.n && x != v && Under(sh.order, v, x);
    if level <= LevelOf(sh.order, v) {
      if below {
        ParentOfChild(sh.order, Branch(sh.order, v, x));
      }
    } else {
      var lo, hi := ChildLo(sh, v, level), ChildHi(sh, v, level);
      InSpan(sh, v, level, 0);
      forall c: nat | lo <= c < hi
        ensures ChildOf(sh.order, c, v)
      {
        InSpan(sh, v, level, c);
      }
      SpanMembers(sh, v, lo, hi, deepFirst, x);
      LevelsMembers(sh, v, level - 1, deepFirst, x);
      if below {
        InSpan(sh, v, level, Branch(sh.order, v, x));
      }
    }
  }

  lemma {:induction false} SpanMembers(sh: Shape, v: nat, a: nat, b: nat, deepFirst: bool, x: nat)
    requires ValidShape(sh) && (a < b ==> b <= sh.n)
    requires forall c: nat :: a <= c < b ==> ChildOf(sh.order, c, v)
    ensures x in WalkSpan(sh, a, b, deepFirst) <==>
      x < sh.n && x != v && Under(sh.order, v, x) && a <= Branch(sh.order, v, x) < b
    decreases if a < sh.n then sh.n - a else 0, 3, 0
  {
    if a < b {
      assert ChildOf(sh.order, a, v);
      WalkMembers(sh, a, deepFirst, x);
      SpanMembers(sh, v, a + 1, b, deepFirst, x);
      BranchIs(sh.order, v, a, x);
    }
  }

  lemma {:induction false} Disjoint(a: seq<nat>, b: seq<nat>)
    requires NoDuplicates(a) && NoDuplicates(b) && forall x :: x in a ==> x !in b
    ensures NoDuplicates(a + b)
  {
    forall i, j | 0 <= i < |a| && 0 <= j < |b|
      ensures a[i] != b[j]
    {
      assert a[i] in a && b[j] in b;
    }
  }

  lemma {:induction false} WalkDistinct(sh: Shape, v: nat, deepFirst: bool)
    requires ValidShape(sh) && v < sh.n
    ensures NoDuplicates(Walk(sh, v, deepFirst))
    decreases sh.n - v, 2, 0
  {
    LevelsDistinct(sh, v, Depth(sh) - 1, deepFirst);
    LevelsMembers(sh, v, Depth(sh) - 1, deepFirst, v);
    Disjoint([v], WalkLevels(sh, v, Depth(sh) - 1, deepFirst));
  }

  lemma {:induction false} LevelsDistinct(sh: Shape, v: nat, level: nat, deepFirst: bool)
    requires ValidShape(sh) && v < sh.n
    ensures NoDuplicates(WalkLevels(sh, v, level, deepFirst))
    decreases sh.n - v, 1, level
  {
    if level > LevelOf(sh.order, v) {
      var lo, hi := ChildLo(sh, v, level), ChildHi(sh, v, level);
      InSpan(sh, v, level, 0);
      var span, rest := WalkSpan(sh, lo, hi, deepFirst), WalkLevels(sh, v, level - 1, deepFirst);
      forall c: nat | lo <= c < hi
        ensures ChildOf(sh.order, c, v)
      {
        InSpan(sh, v, level, c);
      }
      SpanDistinct(sh, v, lo, hi, deepFirst);
      LevelsDistinct(sh, v, level - 1, deepFirst);
      forall x | x in span
        ensures x !in rest
      {
        SpanMembers(sh, v, lo, hi, deepFirst, x);
        LevelsMembers(sh, v, level - 1, deepFirst, x);
        InSpan(sh, v, level, Branch(sh.order, v, x));
      }
      if deepFirst {
        Disjoint(span, rest);
      } else {
        Disjoint(rest, span);
      }
    }
  }

  lemma {:induction false} SpanDistinct(sh: Shape, v: nat, a: nat, b: nat, deepFirst: bool)
    requires ValidShape(sh) && (a < b ==> b <= sh.n)
    requires forall c: nat :: a <= c < b ==> ChildOf(sh.order, c, v)
    ensures NoDuplicates(WalkSpan(sh, a, b, deepFirst))
    decreases if a < sh.n then sh.n - a else 0, 3, 0
  {
    if a < b {
      assert ChildOf(sh.order, a, v);
      WalkDistinct(sh, a, deepFirst);
      SpanDistinct(sh, v, a + 1, b, deepFirst);
      var first, rest := Walk(sh, a, deepFirst), WalkSpan(sh, a + 1, b, deepFirst);
      forall x | x in first
        ensures x !in rest
      {
        WalkMembers(sh, a, deepFirst, x);
        SpanMembers(sh, v, a + 1, b, deepFirst, x);
        BranchIs(sh.order, v, a, x);
      }
      Disjoint(first, rest);
    }
  }

  lemma {:induction false} WalkInRange(sh: Shape, v: nat, deepFirst: bool)
    requires ValidShape(sh) && v < sh.n
    ensures InRange(Walk(sh, v, deepFirst), sh.n) && NoDuplicates(Walk(sh, v, deepFirst))
  {
    WalkDistinct(sh, v, deepFirst);
    var w := Walk(sh, v, deepFirst);
    forall i | 0 <= i < |w|
      ensures w[i] < sh.n
    {
      assert w[i] in w;
      WalkMembers(sh, v, deepFirst, w[i]);
    }
  }

  lemma {:induction false} AllUnderRoot(order: nat, x: nat)
    requires order >= 2
    ensures Under(order, 0, x)
    decreases x
  {
    if x > 0 {
      ParentOfChild(order, x);
      AllUnderRoot(order, Parent(order, x));
    }
  }

  /** Either traversal from the root lists every node of the tree exactly once. */
  lemma {:induction false} RootWalkIsPermutation(sh: Shape, deepFirst: bool)
    requires ValidShape(sh)
    ensures IsPermutation(Walk(sh, 0, deepFirst), sh.n)
  {
    WalkDistinct(sh, 0, deepFirst);
    var order := Walk(sh, 0, deepFirst);
    forall i | 0 <= i < |order|
      ensures order[i] < sh.n
    {
      assert order[i] in order;
      WalkMembers(sh, 0, deepFirst, order[i]);
    }
    forall x: nat | x < sh.n
      ensures x in order
    {
      WalkMembers(sh, 0, deepFirst, x);
      AllUnderRoot(sh.order, x);
    }
  }
}
