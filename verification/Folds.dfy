/** Reductions: folding an operation over the contributions of many processes. */
module Folds {

  ghost predicate Associates<T>(op: (T, T) -> T, a: T, b: T, c: T) {
    op(op(a, b), c) == op(a, op(b, c))
  }

  ghost predicate Commutes<T>(op: (T, T) -> T, a: T, b: T) {
    op(a, b) == op(b, a)
  }

  ghost predicate Associative<T(!new)>(op: (T, T) -> T) {
    forall a, b, c :: Associates(op, a, b, c)
  }

  ghost predicate Commutative<T(!new)>(op: (T, T) -> T) {
    forall a, b :: Commutes(op, a, b)
  }

  /** `x[0] op x[1] op ... op x[n-1]`, from the left. */
  ghost function Fold<T>(op: (T, T) -> T, x: seq<T>): T
    requires |x| > 0
  {
    if |x| == 1 then x[0] else op(Fold(op, x[..|x| - 1]), x[|x| - 1])
  }

  ghost function Reverse<T>(x: seq<T>): (r: seq<T>)
    ensures |r| == |x|
    ensures forall i :: 0 <= i < |x| ==> r[i] == x[|x| - 1 - i]
  {
    if x == [] then [] else [x[|x| - 1]] + Reverse(x[..|x| - 1])
  }

  lemma {:induction false} FoldConcat<T(!new)>(op: (T, T) -> T, a: seq<T>, b: seq<T>)
    requires Associative(op) && |a| > 0 && |b| > 0
    ensures Fold(op, a + b) == op(Fold(op, a), Fold(op, b))
    decreases |b|
  {
    var c := a + b;
    assert c[..|c| - 1] == a + b[..|b| - 1];
    if |b| == 1 {
      assert a + b[..0] == a;
    } else {
      FoldConcat(op, a, b[..|b| - 1]);
      assert Associates(op, Fold(op, a), Fold(op, b[..|b| - 1]), b[|b| - 1]);
    }
  }

  /** The order of contributions does not matter to a commutative operation. */
  lemma {:induction false} FoldPermutation<T(!new)>(op: (T, T) -> T, a: seq<T>, b: seq<T>)
    requires Associative(op) && Commutative(op)
    requires |a| > 0 && multiset(a) == multiset(b)
    ensures |b| > 0 && Fold(op, a) == Fold(op, b)
    decreases |a|
  {
    SameSize(a, b);
    if |a| == 1 {
      assert a == [a[0]] && b == [b[0]];
      assert b[0] in multiset(a);
    } else {
      hide Associative, Commutative;
      var i := LastIn(a, b);
      WithoutLast(a, b, i);
      FoldPermutation(op, a[..|a| - 1], b[..i] + b[i + 1..]);
      MoveToEnd(op, b[..i], b[i], b[i + 1..]);
      CutAt(b, i);
    }
  }

  lemma {:induction false} CutAt<T>(b: seq<T>, i: nat)
    requires i < |b|
    ensures b == b[..i] + [b[i]] + b[i + 1..]
  {
  }

  /** Where the last element of a is in b. */
  lemma {:induction false} LastIn<T>(a: seq<T>, b: seq<T>) returns (i: nat)
    requires |a| > 0 && multiset(a) == multiset(b)
    ensures i < |b| && b[i] == a[|a| - 1]
  {
    assert a[|a| - 1] in multiset(a);
    i :| 0 <= i < |b| && b[i] == a[|a| - 1];
  }

  lemma {:induction false} MultisetAt<T>(b: seq<T>, i: nat)
    requires i < |b|
    ensures multiset(b) == multiset(b[..i] + b[i + 1..]) + multiset{b[i]}
  {
    CutAt(b, i);
    assert multiset(b[..i] + [b[i]] + b[i + 1..]) == multiset(b[..i]) + multiset{b[i]} + multiset(b[i + 1..]);
    assert multiset(b[..i] + b[i + 1..]) == multiset(b[..i]) + multiset(b[i + 1..]);
  }

  lemma {:induction false} WithoutLast<T>(a: seq<T>, b: seq<T>, i: nat)
    requires |a| > 0 && multiset(a) == multiset(b) && i < |b| && b[i] == a[|a| - 1]
    ensures multiset(a[..|a| - 1]) == multiset(b[..i] + b[i + 1..])
  {
    var n := |a| - 1;
    MultisetAt(a, n);
    MultisetAt(b, i);
    assert a[..n] + a[n + 1..] == a[..n];
    OneLess(multiset(a[..n]), multiset(b[..i] + b[i + 1..]), a[n]);
  }

  lemma {:induction false} OneLess<T>(a: multiset<T>, b: multiset<T>, x: T)
    requires a + multiset{x} == b + multiset{x}
    ensures a == b
  {
    assert a == (a + multiset{x}) - multiset{x};
    assert b == (b + multiset{x}) - multiset{x};
  }

  lemma {:induction false} SameSize<T>(a: seq<T>, b: seq<T>)
    requires multiset(a) == multiset(b)
    ensures |a| == |b|
  {
    assert |multiset(a)| == |a| && |multiset(b)| == |b|;
  }

  lemma {:induction false} MoveToEnd<T(!new)>(op: (T, T) -> T, left: seq<T>, x: T, right: seq<T>)
    requires Associative(op) && Commutative(op)
    requires |left| + |right| > 0
    ensures Fold(op, left + [x] + right) == op(Fold(op, left + right), x)
  {
    if right == [] {
      assert left + [x] + right == left + [x] && left + right == left;
      FoldConcat(op, left, [x]);
    } else {
      FoldConcat(op, [x], right);
      assert Commutes(op, x, Fold(op, right));
      if left == [] {
        assert left + [x] + right == [x] + right && left + right == right;
      } else {
        assert left + [x] + right == left + ([x] + right);
        FoldConcat(op, left, [x] + right);
        FoldConcat(op, left, right);
        assert Associates(op, Fold(op, left), Fold(op, right), x);
      }
    }
  }

  lemma {:induction false} ReverseMultiset<T>(x: seq<T>)
    ensures multiset(Reverse(x)) == multiset(x)
    decreases |x|
  {
    if x != [] {
      ReverseMultiset(x[..|x| - 1]);
      assert x == x[..|x| - 1] + [x[|x| - 1]];
    }
  }
}
