/**
 The order in which the nodes of the tree send to their parents in a gather: the deepest
 level first, and within a level in ascending order; and what a node has collected so far.
 */
module GatherOrder {
  import opened Layout
  import opened NaryTree
  import opened TreeWalk

  ghost function LevelEnd(sh: Shape, level: nat): (e: nat)
    requires ValidShape(sh) && level >= 1
    ensures e >= LevelStart(sh.order, level)
  {
    PowerPositive(sh.order, level - 1);
    if Power(sh.order, level) <= sh.n then Power(sh.order, level)
    else if LevelStart(sh.order, level) <= sh.n then sh.n else LevelStart(sh.order, level)
  }

  /** The nodes of levels `level` down to 1, as they send. */
  ghost function Senders(sh: Shape, level: nat): seq<nat>
    requires ValidShape(sh)
    decreases level
  {
    if level == 0 then [] else Span(LevelStart(sh.order, level), LevelEnd(sh, level)) + Senders(sh, level - 1)
  }

  ghost function SendOrder(sh: Shape): seq<nat>
    requires ValidShape(sh)
  {
    Senders(sh, Depth(sh) - 1)
  }

  /** The nodes that have sent before any node of `level` does. */
  ghost function Before(sh: Shape, level: nat): seq<nat>
    requires ValidShape(sh) && level <= Depth(sh) - 1
    decreases Depth(sh) - level
  {
    if level == Depth(sh) - 1 then []
    else Before(sh, level + 1) + Span(LevelStart(sh.order, level + 1), LevelEnd(sh, level + 1))
  }

  lemma {:induction false} OrderSplits(sh: Shape, level: nat)
    requires ValidShape(sh) && level <= Depth(sh) - 1
    ensures Before(sh, level) + Senders(sh, level) == SendOrder(sh)
    decreases Depth(sh) - level
  {
    if level < Depth(sh) - 1 {
      OrderSplits(sh, level + 1);
      var span := Span(LevelStart(sh.order, level + 1), LevelEnd(sh, level + 1));
      Regroup(Before(sh, level + 1), span, Senders(sh, level));
    }
  }

  lemma {:induction false} Regroup<T>(a: seq<T>, b: seq<T>, c: seq<T>)
    ensures (a + b) + c == a + (b + c)
  {
  }

  lemma {:induction false} LevelNodes(sh: Shape, level: nat, c: nat)
    requires ValidShape(sh) && 1 <= level <= Depth(sh) - 1
    ensures LevelStart(sh.order, level) <= c < LevelEnd(sh, level) <==> c < sh.n && LevelOf(sh.order, c) == level
  {
    PowerPositive(sh.order, level - 1);
    if LevelStart(sh.order, level) <= c < LevelEnd(sh, level) {
      LevelIs(sh.order, c, level);
    }
    if c < sh.n && LevelOf(sh.order, c) == level {
      LevelBounds(sh.order, c);
    }
  }

  /** The nodes that have sent before node c does: the deeper levels, and the smaller nodes of its level. */
  ghost function SentBefore(sh: Shape, c: nat): seq<nat>
    requires ValidShape(sh) && 0 < c < sh.n
  {
    LevelsFit(sh, c);
    LevelBounds(sh.order, c);
    Before(sh, LevelOf(sh.order, c)) + Span(LevelStart(sh.order, LevelOf(sh.order, c)), c)
  }

  lemma {:induction false} SendPosition(sh: Shape, level: nat, r: nat)
    requires ValidShape(sh) && level <= Depth(sh) - 1 && r < |Senders(sh, level)|
    ensures var c, k := Senders(sh, level)[r], |Before(sh, level)| + r;
      0 < c < sh.n && k < |SendOrder(sh)| && SendOrder(sh)[k] == c && SendOrder(sh)[..k] == SentBefore(sh, c)
    decreases level
  {
    OrderSplits(sh, level);
    var lo, hi := LevelStart(sh.order, level), LevelEnd(sh, level);
    PowerPositive(sh.order, level - 1);
    if r < hi - lo {
      var c := lo + r;
      LevelNodes(sh, level, c);
      assert Senders(sh, level)[r] == c;
      assert SendOrder(sh)[..|Before(sh, level)| + r] == Before(sh, level) + Span(lo, c);
    } else {
      SendPosition(sh, level - 1, r - (hi - lo));
    }
  }

  /** In round r of the gather, node `SendOrder[r]` sends, and those before it have sent. */
  lemma {:induction false} RoundSender(sh: Shape, r: nat)
    requires ValidShape(sh) && r < |SendOrder(sh)|
    ensures 0 < SendOrder(sh)[r] < sh.n && SendOrder(sh)[..r] == SentBefore(sh, SendOrder(sh)[r])
  {
    SendPosition(sh, Depth(sh) - 1, r);
  }

  /** Every node but the root sends. */
  lemma {:induction false} EveryoneSends(sh: Shape, level: nat, c: nat)
    requires ValidShape(sh) && level <= Depth(sh) - 1 && 0 < c < sh.n && LevelOf(sh.order, c) <= level
    ensures c in Senders(sh, level)
    decreases level
  {
    LevelBounds(sh.order, c);
    var lo, hi := LevelStart(sh.order, level), LevelEnd(sh, level);
    if LevelOf(sh.order, c) == level {
      LevelNodes(sh, level, c);
      assert Span(lo, hi)[c - lo] == c;
    } else {
      EveryoneSends(sh, level - 1, c);
    }
  }

  // ---------------------------------------------------------------- what a node has collected

  ghost predicate AllNodes(sh: Shape, s: seq<nat>) {
    forall i :: 0 <= i < |s| ==> 0 < s[i] < sh.n
  }

  /** The hosts whose data node v has after the nodes in `sent` have sent to their parents. */
  ghost function Got(sh: Shape, v: nat, sent: seq<nat>): seq<nat>
    requires ValidShape(sh) && AllNodes(sh, sent)
  {
    if sent == [] then [v]
    else
      var c := sent[|sent| - 1];
      Got(sh, v, sent[..|sent| - 1]) + (if Parent(sh.order, c) == v then Walk(sh, c, true) else [])
  }

  lemma {:induction false} GotStep(sh: Shape, v: nat, sent: seq<nat>, c: nat)
    requires ValidShape(sh) && AllNodes(sh, sent) && 0 < c < sh.n
    ensures Got(sh, v, sent + [c]) ==
      if Parent(sh.order, c) == v then Got(sh, v, sent) + Walk(sh, c, true) else Got(sh, v, sent)
  {
    assert (sent + [c])[..|sent|] == sent;
  }

  lemma {:induction false} AlongLevel(sh: Shape, level: nat, base: seq<nat>, c: nat)
    requires ValidShape(sh) && 1 <= level <= Depth(sh) - 1 && AllNodes(sh, base)
    requires LevelStart(sh.order, level) <= c <= LevelEnd(sh, level)
    ensures AllNodes(sh, base + Span(LevelStart(sh.order, level), c))
    ensures c < LevelEnd(sh, level) ==>
      && 0 < c < sh.n && LevelOf(sh.order, c) == level
      && base + Span(LevelStart(sh.order, level), c + 1) == base + Span(LevelStart(sh.order, level), c) + [c]
  {
    PowerPositive(sh.order, level - 1);
    LevelNodes(sh, level, c);
    var all := base + Span(LevelStart(sh.order, level), c);
    forall i | 0 <= i < |all|
      ensures 0 < all[i] < sh.n
    {
      if i >= |base| {
        LevelNodes(sh, level, all[i]);
      }
    }
  }

  /** The part of a span of children that comes before node c. */
  function UpTo(lo: nat, hi: nat, c: nat): nat
    requires lo <= hi
  {
    if c < lo then lo else if c < hi then c else hi
  }

  lemma {:induction false} SpanGrows(sh: Shape, lo: nat, hi: nat, c: nat)
    requires ValidShape(sh) && lo <= hi && (lo < hi ==> hi <= sh.n)
    ensures lo <= c < hi ==> WalkSpan(sh, lo, c + 1, true) == WalkSpan(sh, lo, c, true) + Walk(sh, c, true)
    decreases hi - lo
  {
    if lo < c < hi {
      SpanGrows(sh, lo + 1, hi, c);
    } else if lo == c < hi {
      assert WalkSpan(sh, c + 1, c + 1, true) == [];
    }
  }

  /** Sends of nodes that are not deeper than v do not concern v. */
  lemma {:induction false} GotUnchanged(sh: Shape, v: nat, level: nat, base: seq<nat>, c: nat)
    requires ValidShape(sh) && v < sh.n && 1 <= level <= Depth(sh) - 1 && AllNodes(sh, base)
    requires LevelOf(sh.order, v) >= level
    requires LevelStart(sh.order, level) <= c <= LevelEnd(sh, level)
    requires AllNodes(sh, base + Span(LevelStart(sh.order, level), c))
    ensures Got(sh, v, base + Span(LevelStart(sh.order, level), c)) == Got(sh, v, base)
    decreases c
  {
    hide LevelOf, LevelStart, LevelEnd, Depth, Walk, Got, Parent;
    var s := LevelStart(sh.order, level);
    if c == s {
      assert base + Span(s, c) == base;
    } else {
      AlongLevel(sh, level, base, c - 1);
      GotUnchanged(sh, v, level, base, c - 1);
      GotStep(sh, v, base + Span(s, c - 1), c - 1);
      ParentOfChild(sh.order, c - 1);
    }
  }

  /** Along one deeper level, v collects the subtrees of its children at that level. */
  lemma {:induction false} GotGrows(sh: Shape, v: nat, level: nat, base: seq<nat>, c: nat)
    requires ValidShape(sh) && v < sh.n && 1 <= level <= Depth(sh) - 1 && AllNodes(sh, base)
    requires LevelOf(sh.order, v) < level
    requires LevelStart(sh.order, level) <= c <= LevelEnd(sh, level)
    requires AllNodes(sh, base + Span(LevelStart(sh.order, level), c))
    requires ChildLo(sh, v, level) < ChildHi(sh, v, level) ==> ChildHi(sh, v, level) <= sh.n
    ensures Got(sh, v, base + Span(LevelStart(sh.order, level), c)) ==
      Got(sh, v, base) + WalkSpan(sh, ChildLo(sh, v, level), UpTo(ChildLo(sh, v, level), ChildHi(sh, v, level), c),
                                  true)
    decreases c
  {
    hide LevelOf, LevelStart, LevelEnd, Depth, Walk, Got, Parent, ChildLo, ChildHi, WalkSpan;
    var s, lo, hi := LevelStart(sh.order, level), ChildLo(sh, v, level), ChildHi(sh, v, level);
    if c == s {
      assert base + Span(s, c) == base;
      ChildrenNotBefore(sh, v, level);
      EmptySpan(sh, lo, true);
    } else {
      AlongLevel(sh, level, base, c - 1);
      GotGrows(sh, v, level, base, c - 1);
      GotStep(sh, v, base + Span(s, c - 1), c - 1);
      InSpan(sh, v, level, c - 1);
      SpanGrows(sh, lo, hi, c - 1);
      if Parent(sh.order, c - 1) == v {
        assert Got(sh, v, base) + WalkSpan(sh, lo, c, true) ==
          (Got(sh, v, base) + WalkSpan(sh, lo, c - 1, true)) + Walk(sh, c - 1, true);
      }
    }
  }

  lemma {:induction false} ChildrenNotBefore(sh: Shape, v: nat, level: nat)
    requires ValidShape(sh) && LevelOf(sh.order, v) < level
    ensures LevelStart(sh.order, level) <= ChildLo(sh, v, level)
    ensures ChildLo(sh, v, level) < ChildHi(sh, v, level) ==> ChildHi(sh, v, level) <= sh.n
    ensures ChildHi(sh, v, level) <= LevelEnd(sh, level) || ChildLo(sh, v, level) == ChildHi(sh, v, level)
  {
    LevelBelow(sh.order, v, level);
    ChildrenInLevel(sh.order, v, level);
  }

  /** Once the levels below have sent, what is missing of v's subtree is the remaining levels. */
  lemma {:induction false} GotAtLevel(sh: Shape, v: nat, level: nat)
    requires ValidShape(sh) && v < sh.n && LevelOf(sh.order, v) <= level <= Depth(sh) - 1
    ensures AllNodes(sh, Before(sh, level))
    ensures Got(sh, v, Before(sh, level)) + WalkLevels(sh, v, level, true) == Walk(sh, v, true)
    decreases Depth(sh) - level
  {
    hide LevelOf, LevelStart, LevelEnd, Got, ChildLo, ChildHi, WalkSpan, WalkLevels;
    if level == Depth(sh) - 1 {
      GotFirst(sh, v);
    } else {
      GotAtLevel(sh, v, level + 1);
      LevelCollected(sh, v, level + 1);
      LevelsUnfold(sh, v, level + 1);
      var lo, hi := ChildLo(sh, v, level + 1), ChildHi(sh, v, level + 1);
      assert (Got(sh, v, Before(sh, level + 1)) + WalkSpan(sh, lo, hi, true)) + WalkLevels(sh, v, level, true) ==
        Got(sh, v, Before(sh, level + 1)) + (WalkSpan(sh, lo, hi, true) + WalkLevels(sh, v, level, true));
    }
  }

  lemma {:induction false} GotFirst(sh: Shape, v: nat)
    requires ValidShape(sh)
    ensures Got(sh, v, []) == [v]
  {
  }

  /** One level's sends give v all its children of that level. */
  lemma {:induction false} LevelCollected(sh: Shape, v: nat, level: nat)
    requires ValidShape(sh) && v < sh.n && LevelOf(sh.order, v) < level <= Depth(sh) - 1
    requires AllNodes(sh, Before(sh, level))
    ensures ChildLo(sh, v, level) < ChildHi(sh, v, level) ==> ChildHi(sh, v, level) <= sh.n
    ensures AllNodes(sh, Before(sh, level - 1))
    ensures Got(sh, v, Before(sh, level - 1)) ==
      Got(sh, v, Before(sh, level)) + WalkSpan(sh, ChildLo(sh, v, level), ChildHi(sh, v, level), true)
  {
    hide LevelOf, LevelStart, LevelEnd, Got, Walk, ChildLo, ChildHi, WalkSpan;
    AlongLevel(sh, level, Before(sh, level), LevelEnd(sh, level));
    ChildrenNotBefore(sh, v, level);
    GotGrows(sh, v, level, Before(sh, level), LevelEnd(sh, level));
    assert UpTo(ChildLo(sh, v, level), ChildHi(sh, v, level), LevelEnd(sh, level)) == ChildHi(sh, v, level);
  }

  lemma {:induction false} LevelsUnfold(sh: Shape, v: nat, level: nat)
    requires ValidShape(sh) && v < sh.n && LevelOf(sh.order, v) < level
    ensures ChildLo(sh, v, level) < ChildHi(sh, v, level) ==> ChildHi(sh, v, level) <= sh.n
    ensures WalkLevels(sh, v, level, true) ==
      WalkSpan(sh, ChildLo(sh, v, level), ChildHi(sh, v, level), true) + WalkLevels(sh, v, level - 1, true)
  {
    InSpan(sh, v, level, 0);
  }

  /** After its children's levels, nothing more comes to a node. */
  lemma {:induction false} GotSettles(sh: Shape, v: nat, level: nat)
    requires ValidShape(sh) && v < sh.n && level <= LevelOf(sh.order, v) <= Depth(sh) - 1
    ensures AllNodes(sh, Before(sh, level)) && Got(sh, v, Before(sh, level)) == Walk(sh, v, true)
    decreases Depth(sh) - level
  {
    if level == LevelOf(sh.order, v) {
      GotAtLevel(sh, v, level);
      assert WalkLevels(sh, v, level, true) == [];
    } else {
      GotSettles(sh, v, level + 1);
      AlongLevel(sh, level + 1, Before(sh, level + 1), LevelEnd(sh, level + 1));
      GotUnchanged(sh, v, level + 1, Before(sh, level + 1), LevelEnd(sh, level + 1));
    }
  }

  /** When a node sends, it has its whole subtree, in gather order. */
  lemma {:induction false} GotWhenSending(sh: Shape, c: nat)
    requires ValidShape(sh) && 0 < c < sh.n
    ensures AllNodes(sh, SentBefore(sh, c)) && Got(sh, c, SentBefore(sh, c)) == Walk(sh, c, true)
  {
    LevelsFit(sh, c);
    LevelBounds(sh.order, c);
    var level := LevelOf(sh.order, c);
    GotSettles(sh, c, level);
    LevelNodes(sh, level, c);
    AlongLevel(sh, level, Before(sh, level), c);
    GotUnchanged(sh, c, level, Before(sh, level), c);
  }

  /** At the end every node has had its whole subtree. */
  lemma {:induction false} GotInTheEnd(sh: Shape, v: nat)
    requires ValidShape(sh) && v < sh.n
    ensures AllNodes(sh, SendOrder(sh)) && Got(sh, v, SendOrder(sh)) == Walk(sh, v, true)
  {
    LevelsFit(sh, v);
    GotSettles(sh, v, 0);
    OrderSplits(sh, 0);
    assert Before(sh, 0) + [] == Before(sh, 0);
  }

  lemma {:induction false} GotMonotone(sh: Shape, v: nat, sent: seq<nat>, r: nat)
    requires ValidShape(sh) && AllNodes(sh, sent) && r <= |sent|
    ensures AllNodes(sh, sent[..r]) && Got(sh, v, sent[..r]) <= Got(sh, v, sent)
    decreases |sent|
  {
    if r == |sent| {
      assert sent[..r] == sent;
    } else {
      GotMonotone(sh, v, sent[..|sent| - 1], r);
      assert sent[..|sent| - 1][..r] == sent[..r];
    }
  }

  // ---------------------------------------------------------------- who has sent to a node

  /** The children of v among the nodes that have sent, in the order of their sends. */
  ghost function Heard(sh: Shape, v: nat, sent: seq<nat>): seq<nat>
    requires ValidShape(sh) && AllNodes(sh, sent)
  {
    if sent == [] then []
    else
      var c := sent[|sent| - 1];
      Heard(sh, v, sent[..|sent| - 1]) + (if Parent(sh.order, c) == v then [c] else [])
  }

  lemma {:induction false} HeardStep(sh: Shape, v: nat, sent: seq<nat>, c: nat)
    requires ValidShape(sh) && AllNodes(sh, sent) && 0 < c < sh.n
    ensures Heard(sh, v, sent + [c]) ==
      if Parent(sh.order, c) == v then Heard(sh, v, sent) + [c] else Heard(sh, v, sent)
  {
    assert (sent + [c])[..|sent|] == sent;
  }

  lemma {:induction false} HeardUnchanged(sh: Shape, v: nat, level: nat, base: seq<nat>, c: nat)
    requires ValidShape(sh) && v < sh.n && 1 <= level <= Depth(sh) - 1 && AllNodes(sh, base)
    requires LevelOf(sh.order, v) >= level
    requires LevelStart(sh.order, level) <= c <= LevelEnd(sh, level)
    requires AllNodes(sh, base + Span(LevelStart(sh.order, level), c))
    ensures Heard(sh, v, base + Span(LevelStart(sh.order, level), c)) == Heard(sh, v, base)
    decreases c
  {
    hide LevelOf, LevelStart, LevelEnd, Depth, Heard, Parent;
    var s := LevelStart(sh.order, level);
    if c == s {
      assert base + Span(s, c) == base;
    } else {
      AlongLevel(sh, level, base, c - 1);
      HeardUnchanged(sh, v, level, base, c - 1);
      HeardStep(sh, v, base + Span(s, c - 1), c - 1);
      ParentOfChild(sh.order, c - 1);
    }
  }

  lemma {:induction false} HeardGrows(sh: Shape, v: nat, level: nat, base: seq<nat>, c: nat)
    requires ValidShape(sh) && v < sh.n && 1 <= level <= Depth(sh) - 1 && AllNodes(sh, base)
    requires LevelOf(sh.order, v) < level
    requires LevelStart(sh.order, level) <= c <= LevelEnd(sh, level)
    requires AllNodes(sh, base + Span(LevelStart(sh.order, level), c))
    ensures Heard(sh, v, base + Span(LevelStart(sh.order, level), c)) ==
      Heard(sh, v, base) + Span(ChildLo(sh, v, level), UpTo(ChildLo(sh, v, level), ChildHi(sh, v, level), c))
    decreases c
  {
    hide LevelOf, LevelStart, LevelEnd, Depth, Heard, Parent, ChildLo, ChildHi;
    var s, lo, hi := LevelStart(sh.order, level), ChildLo(sh, v, level), ChildHi(sh, v, level);
    if c == s {
      assert base + Span(s, c) == base;
      ChildrenNotBefore(sh, v, level);
    } else {
      AlongLevel(sh, level, base, c - 1);
      HeardGrows(sh, v, level, base, c - 1);
      HeardStep(sh, v, base + Span(s, c - 1), c - 1);
      InSpan(sh, v, level, c - 1);
    }
  }

  /** One level's sends reach v from exactly its children of that level, or from nobody. */
  lemma {:induction false} LevelHeard(sh: Shape, v: nat, level: nat)
    requires ValidShape(sh) && v < sh.n && 1 <= level <= Depth(sh) - 1 && AllNodes(sh, Before(sh, level))
    ensures AllNodes(sh, Before(sh, level - 1))
    ensures Heard(sh, v, Before(sh, level - 1)) ==
      if LevelOf(sh.order, v) < level
      then Heard(sh, v, Before(sh, level)) + Span(ChildLo(sh, v, level), ChildHi(sh, v, level))
      else Heard(sh, v, Before(sh, level))
  {
    hide LevelOf, LevelStart, LevelEnd, Heard, ChildLo, ChildHi;
    AlongLevel(sh, level, Before(sh, level), LevelEnd(sh, level));
    if LevelOf(sh.order, v) < level {
      ChildrenNotBefore(sh, v, level);
      HeardGrows(sh, v, level, Before(sh, level), LevelEnd(sh, level));
    } else {
      HeardUnchanged(sh, v, level, Before(sh, level), LevelEnd(sh, level));
    }
  }

  lemma {:induction false} HeardSettles(sh: Shape, v: nat, level: nat)
    requires ValidShape(sh) && v < sh.n && level <= LevelOf(sh.order, v) <= Depth(sh) - 1
    requires AllNodes(sh, Before(sh, LevelOf(sh.order, v)))
    ensures AllNodes(sh, Before(sh, level))
    ensures Heard(sh, v, Before(sh, level)) == Heard(sh, v, Before(sh, LevelOf(sh.order, v)))
    decreases Depth(sh) - level
  {
    hide LevelOf, Heard, ChildLo, ChildHi;
    if level < LevelOf(sh.order, v) {
      HeardSettles(sh, v, level + 1);
      LevelHeard(sh, v, level + 1);
    }
  }

  lemma {:induction false} BeforeLevels(sh: Shape, level: nat, x: nat)
    requires ValidShape(sh) && level <= Depth(sh) - 1 && x in Before(sh, level)
    ensures 0 < x < sh.n && LevelOf(sh.order, x) > level
    decreases Depth(sh) - level
  {
    hide LevelOf, LevelStart, LevelEnd;
    if level < Depth(sh) - 1 && x in Span(LevelStart(sh.order, level + 1), LevelEnd(sh, level + 1)) {
      LevelNodes(sh, level + 1, x);
      LevelBounds(sh.order, x);
    } else {
      BeforeLevels(sh, level + 1, x);
    }
  }

  /** Nodes send once, and children before their parents. */
  lemma {:induction false} NotYetSent(sh: Shape, c: nat, x: nat)
    requires ValidShape(sh) && 0 < c < sh.n && x in SentBefore(sh, c)
    ensures x != c && x != Parent(sh.order, c)
  {
    hide LevelOf, LevelStart, LevelEnd, Before, Parent;
    LevelsFit(sh, c);
    LevelBounds(sh.order, c);
    var level := LevelOf(sh.order, c);
    ParentOfChild(sh.order, c);
    if x in Before(sh, level) {
      BeforeLevels(sh, level, x);
    }
  }

  /** Of two turns, the later is another node's, and not that of a child of the earlier. */
  lemma {:induction false} LaterTurn(sh: Shape, i: nat, j: nat)
    requires ValidShape(sh) && j <= i < |SendOrder(sh)|
    ensures 0 < SendOrder(sh)[i] < sh.n && Parent(sh.order, SendOrder(sh)[i]) != SendOrder(sh)[j]
    ensures j < i ==> SendOrder(sh)[j] != SendOrder(sh)[i]
  {
    hide SendOrder, SentBefore, Parent;
    var order := SendOrder(sh);
    RoundSender(sh, i);
    ParentOfChild(sh.order, order[i]);
    if j < i {
      assert order[..i][j] in order[..i];
      NotYetSent(sh, order[i], order[j]);
    }
  }

  lemma {:induction false} HasTurn(sh: Shape, c: nat)
    requires ValidShape(sh) && 0 < c < sh.n
    ensures c in SendOrder(sh)
  {
    hide Senders, LevelOf;
    LevelsFit(sh, c);
    EveryoneSends(sh, Depth(sh) - 1, c);
  }

  /** Every node but the root sends once, and after all its children. */
  lemma {:induction false} EachSendsOnce(sh: Shape)
    requires ValidShape(sh)
    ensures NoDuplicates(SendOrder(sh)) && forall c: nat :: c in SendOrder(sh) <==> 0 < c < sh.n
    ensures forall i :: 0 <= i < |SendOrder(sh)| ==> 0 < SendOrder(sh)[i] < sh.n
    ensures forall i, j {:trigger SendOrder(sh)[i], SendOrder(sh)[j]} :: 0 <= j <= i < |SendOrder(sh)| ==>
      Parent(sh.order, SendOrder(sh)[i]) != SendOrder(sh)[j]
  {
    hide SendOrder, Parent;
    var order := SendOrder(sh);
    forall i, j | 0 <= j <= i < |order|
      ensures 0 < order[i] < sh.n && (j < i ==> order[j] != order[i]) && Parent(sh.order, order[i]) != order[j]
    {
      LaterTurn(sh, i, j);
    }
    forall c: nat | 0 < c < sh.n
      ensures c in order
    {
      HasTurn(sh, c);
    }
    forall c: nat | c in order
      ensures 0 < c < sh.n
    {
      var i :| 0 <= i < |order| && order[i] == c;
      LaterTurn(sh, i, i);
    }
  }
}
