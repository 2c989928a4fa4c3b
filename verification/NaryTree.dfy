/**
 The tree of `setupNaryTree`: every node present at one level gets `order - 1` new children
 at each deeper level, as far as there are nodes.  Node v first appears at level `LevelOf(v)`;
 level l > 0 introduces the nodes from order^(l-1) up to order^l.
 */
module NaryTree {
  import opened Arith

  function Power(order: nat, k: nat): (r: nat) {
    if k == 0 then 1 else order * Power(order, k - 1)
  }

  /** The first node of a level: `cumNodes[level]`. */
  function LevelStart(order: nat, level: nat): nat {
    if level == 0 then 0 else Power(order, level - 1)
  }

  lemma {:induction false} QuotientShrinks(v: nat, d: nat)
    requires v > 0 && d >= 2
    ensures v / d < v && v == v / d * d + v % d && v % d < d
  {
    if v / d >= v {
      MultiplesApart(0, v / d, d);
      assert v / d * d >= v * d by {
        ProductMonotone(v, v / d, d);
      }
      ProductMonotone(2, d, v);
    }
  }

  lemma {:induction false} ProductMonotone(a: nat, b: nat, d: nat)
    requires a <= b
    ensures a * d <= b * d && d * a <= d * b
  {
    if a < b {
      MultiplesApart(a, b, d);
    }
  }

  /** The level at which a node first appears. */
  function LevelOf(order: nat, v: nat): (level: nat)
    requires order >= 2
    decreases v
  {
    if v == 0 then 0
    else
      QuotientShrinks(v, order);
      LevelOf(order, v / order) + 1
  }

  lemma {:induction false} PowerPositive(order: nat, k: nat)
    requires order >= 2
    ensures Power(order, k) >= 1
    ensures Power(order, k + 1) == order * Power(order, k) > Power(order, k)
  {
    if k > 0 {
      PowerPositive(order, k - 1);
    }
    ProductMonotone(2, order, Power(order, k));
  }

  lemma {:induction false} PowerMonotone(order: nat, a: nat, b: nat)
    requires order >= 2 && a <= b
    ensures Power(order, a) <= Power(order, b)
    decreases b
  {
    if a < b {
      PowerMonotone(order, a, b - 1);
      PowerPositive(order, b - 1);
    }
  }

  lemma {:induction false} LevelBounds(order: nat, v: nat)
    requires order >= 2
    ensures LevelStart(order, LevelOf(order, v)) <= v < Power(order, LevelOf(order, v))
    ensures LevelOf(order, v) == 0 <==> v == 0
    decreases v
  {
    hide Power;
    PowerStep(order, 0);
    if v > 0 {
      QuotientShrinks(v, order);
      var q, level := v / order, LevelOf(order, v);
      LevelBounds(order, q);
      PowerStep(order, level - 1);
      ScaledBounds(order, q, v % order, LevelStart(order, level - 1), Power(order, level - 1));
      if q > 0 {
        PowerStep(order, level - 2);
      }
    }
  }

  lemma {:induction false} ScaledBounds(order: nat, q: nat, r: nat, low: nat, high: nat)
    requires r < order && low <= q < high
    ensures order * low <= q * order + r < order * high
  {
    ProductMonotone(low, q, order);
    MultiplesApart(q, high, order);
  }

  lemma {:induction false} PowerStep(order: nat, level: nat)
    ensures Power(order, 0) == 1 && Power(order, level + 1) == order * Power(order, level)
  {
  }

  /** The bounds determine the level. */
  lemma {:induction false} LevelIs(order: nat, v: nat, level: nat)
    requires order >= 2 && LevelStart(order, level) <= v < Power(order, level) && (level == 0 ==> v == 0)
    ensures LevelOf(order, v) == level
  {
    LevelBounds(order, v);
    var l := LevelOf(order, v);
    if l < level {
      PowerMonotone(order, l, level - 1);
    } else if level < l {
      PowerMonotone(order, level, l - 1);
    }
  }

  /** The first child that node p gets at a level. */
  function FirstChild(order: nat, p: nat, level: nat): nat
    requires order >= 2
  {
    p * (order - 1) + LevelStart(order, level)
  }

  /** `(node - cumNodes[level]) / (order - 1)` */
  function Parent(order: nat, c: nat): nat
    requires order >= 2 && c > 0
  {
    LevelBounds(order, c);
    Quotient(c - LevelStart(order, LevelOf(order, c)), order - 1)
  }

  /** The nodes that are there before a level are exactly the parents of that level. */
  lemma {:induction false} ChildrenInLevel(order: nat, p: nat, level: nat)
    requires order >= 2 && level >= 1 && p < LevelStart(order, level)
    ensures LevelStart(order, level) <= FirstChild(order, p, level)
    ensures FirstChild(order, p, level) + (order - 1) <= Power(order, level)
    ensures p < FirstChild(order, p, level)
  {
    var w, s := order - 1, LevelStart(order, level);
    MultiplesApart(p, s, w);
    assert Power(order, level) == order * s == w * s + s;
  }

  lemma {:induction false} ChildOfParent(order: nat, p: nat, level: nat, c: nat)
    requires order >= 2 && level >= 1 && p < LevelStart(order, level)
    requires FirstChild(order, p, level) <= c < FirstChild(order, p, level) + (order - 1)
    ensures c > p && LevelOf(order, c) == level && Parent(order, c) == p
  {
    ChildrenInLevel(order, p, level);
    LevelIs(order, c, level);
    DivisionIs(c - LevelStart(order, level), order - 1, p, c - FirstChild(order, p, level));
  }

  lemma {:induction false} ParentOfChild(order: nat, c: nat)
    requires order >= 2 && c > 0
    ensures var p, level := Parent(order, c), LevelOf(order, c);
      && level >= 1 && p < LevelStart(order, level) && p < c && LevelOf(order, p) < level
      && FirstChild(order, p, level) <= c < FirstChild(order, p, level) + (order - 1)
  {
    hide Power, LevelOf;
    LevelBounds(order, c);
    var level := LevelOf(order, c);
    PowerStep(order, level - 1);
    var s, w := LevelStart(order, level), order - 1;
    QuotientBelow(c - s, w, s);
    LevelBelow(order, (c - s) / w, level);
  }

  lemma {:induction false} QuotientBelow(x: nat, w: nat, s: nat)
    requires w >= 1 && x < (w + 1) * s - s
    ensures x / w < s && x / w * w <= x < x / w * w + w
  {
    var p := x / w;
    assert x == p * w + x % w;
    assert (w + 1) * s - s == s * w;
    if p >= s {
      ProductMonotone(s, p, w);
    }
  }

  lemma {:induction false} LevelBelow(order: nat, p: nat, level: nat)
    requires order >= 2 && level >= 1
    ensures p < LevelStart(order, level) <==> LevelOf(order, p) < level
  {
    LevelBounds(order, p);
    var l := LevelOf(order, p);
    if l < level {
      PowerMonotone(order, l, level - 1);
    } else {
      PowerMonotone(order, level - 1, l - 1);
    }
  }
}
