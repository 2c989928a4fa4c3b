/** The algebra of `ulm_reduce`: reducing on every host and then over the hosts is reducing over all ranks. */
module Reduce {
  import opened Folds
  import opened Layout
  import opened Placement
  import opened Stripes
  import IntrahostReduce

  // ---------------------------------------------------------------- two levels are one

  /** The values of some ranks. */
  ghost function Select<T>(x: seq<T>, ranks: seq<nat>): (s: seq<T>)
    requires InRange(ranks, |x|)
    ensures |s| == |ranks| && forall i :: 0 <= i < |ranks| ==> s[i] == x[ranks[i]]
  {
    seq(|ranks|, i requires 0 <= i < |ranks| => x[ranks[i]])
  }

  lemma {:induction false} SelectConcat<T>(x: seq<T>, a: seq<nat>, b: seq<nat>)
    requires InRange(a, |x|) && InRange(b, |x|)
    ensures Select(x, a + b) == Select(x, a) + Select(x, b)
  {
  }

  lemma {:induction false} SelectInsert<T>(x: seq<T>, left: seq<nat>, v: nat, right: seq<nat>)
    requires InRange(left, |x|) && InRange(right, |x|) && v < |x|
    ensures multiset(Select(x, left + [v] + right)) == multiset(Select(x, left + right)) + multiset{x[v]}
  {
    var a, b := Select(x, left), Select(x, right);
    assert Select(x, left + [v] + right) == a + [x[v]] + b;
    assert Select(x, left + right) == a + b;
  }

  /** Selecting all ranks in some order only reorders the values. */
  lemma {:induction false} SelectPermutes<T>(x: seq<T>, order: seq<nat>, n: nat)
    requires IsPermutation(order, n) && n <= |x|
    ensures multiset(Select(x, order)) == multiset(x[..n])
    decreases n
  {
    hide Select, IsPermutation;
    PermutationLength(order, n);
    PermutationRange(order, n, |x|);
    if n == 0 {
      assert Select(x, order) == [] == x[..n];
    } else {
      var i := Highest(order, n);
      var left, right := order[..i], order[i + 1..];
      PermutationRange(left + right, n - 1, |x|);
      SelectPermutes(x, left + right, n - 1);
      assert order == left + [n - 1] + right;
      SelectInsert(x, left, n - 1, right);
      assert x[..n] == x[..n - 1] + [x[n - 1]];
    }
  }

  lemma {:induction false} Highest(order: seq<nat>, n: nat) returns (i: nat)
    requires n > 0 && IsPermutation(order, n)
    ensures i < |order| && order[i] == n - 1 && IsPermutation(order[..i] + order[i + 1..], n - 1)
  {
    assert n - 1 in order;
    i :| 0 <= i < |order| && order[i] == n - 1;
    RestIsPermutation(order, n, i);
  }

  /** Every host's own fold. */
  ghost function HostFolds<T>(op: (T, T) -> T, x: seq<T>, local: seq<seq<nat>>): (v: seq<T>)
    requires forall h :: 0 <= h < |local| ==> local[h] != [] && InRange(local[h], |x|)
    ensures |v| == |local|
    ensures forall h :: 0 <= h < |local| ==>
      InRange(local[h], |x|) && local[h] != [] && v[h] == Fold(op, Select(x, local[h]))
  {
    seq(|local|, h requires 0 <= h < |local| => assert InRange(local[h], |x|); Fold(op, Select(x, local[h])))
  }

  /** Folding the hosts' folds is folding over the ranks host by host. */
  lemma {:induction false} FoldHosts<T(!new)>(op: (T, T) -> T, x: seq<T>, local: seq<seq<nat>>, k: nat)
    requires Associative(op) && 0 < k <= |local|
    requires forall h :: 0 <= h < |local| ==> local[h] != [] && InRange(local[h], |x|)
    ensures InRange(Flat(local, Ascending(k)), |x|) && Flat(local, Ascending(k)) != []
    ensures Fold(op, HostFolds(op, x, local)[..k]) == Fold(op, Select(x, Flat(local, Ascending(k))))
    decreases k
  {
    hide Select, Flat, HostFolds, Associative;
    FlatStep(local, Ascending(k));
    assert Ascending(k)[..k - 1] == Ascending(k - 1);
    var v := HostFolds(op, x, local);
    if k == 1 {
      FlatOfNone(local);
      assert Flat(local, Ascending(1)) == local[0];
    } else {
      FoldHosts(op, x, local, k - 1);
      assert v[..k][..k - 1] == v[..k - 1];
      SelectConcat(x, Flat(local, Ascending(k - 1)), local[k - 1]);
      FoldConcat(op, Select(x, Flat(local, Ascending(k - 1))), Select(x, local[k - 1]));
    }
  }

  /** For a commutative operation, two levels give what one flat fold gives: every rank once. */
  lemma {:induction false} TwoLevelsAreOne<T(!new)>(op: (T, T) -> T, x: seq<T>, local: seq<seq<nat>>)
    requires Associative(op) && Commutative(op) && |local| > 0 && IsPlacement(local, |x|)
    requires forall h :: 0 <= h < |local| ==> local[h] != [] && InRange(local[h], |x|)
    ensures |x| > 0 && Fold(op, HostFolds(op, x, local)) == Fold(op, x)
  {
    hide Select, Flat, HostFolds, Associative, Commutative, IsPlacement, IsPermutation;
    var n, order := |local|, Flat(local, Ascending(|local|));
    FoldHosts(op, x, local, n);
    AllInOrder(local, |x|);
    SelectPermutes(x, order, |x|);
    FoldPermutation(op, Select(x, order), x[..|x|]);
    assert HostFolds(op, x, local)[..n] == HostFolds(op, x, local) && x[..|x|] == x;
  }

  lemma {:induction false} AllInOrder(local: seq<seq<nat>>, n: nat)
    requires IsPlacement(local, n)
    ensures IsPermutation(Flat(local, Ascending(|local|)), n)
  {
    forall h: nat | h < |local|
      ensures h in Ascending(|local|)
    {
      assert Ascending(|local|)[h] == h;
    }
    RanksInOrder(local, Ascending(|local|), n);
  }

  // ---------------------------------------------------------------- vectors

  /** The operation on arrays: element by element. */
  ghost function Zip<E>(f: (E, E) -> E): (seq<E>, seq<E>) -> seq<E> {
    (a, b) => ZipSeq(f, a, b)
  }

  ghost function ZipSeq<E>(f: (E, E) -> E, a: seq<E>, b: seq<E>): (c: seq<E>)
    ensures |c| == if |a| <= |b| then |a| else |b|
    ensures forall i :: 0 <= i < |c| ==> c[i] == f(a[i], b[i])
  {
    seq(if |a| <= |b| then |a| else |b|, i requires 0 <= i < |a| && i < |b| => f(a[i], b[i]))
  }

  lemma {:induction false} ZipAlgebra<E(!new)>(f: (E, E) -> E)
    requires Associative(f) && Commutative(f)
    ensures Associative(Zip(f)) && Commutative(Zip(f))
  {
    forall a, b, c
      ensures Associates(Zip(f), a, b, c)
    {
      ZipAssociates(f, a, b, c);
    }
    forall a, b
      ensures Commutes(Zip(f), a, b)
    {
      ZipCommutes(f, a, b);
    }
  }

  lemma {:induction false} ZipAssociates<E(!new)>(f: (E, E) -> E, a: seq<E>, b: seq<E>, c: seq<E>)
    requires Associative(f)
    ensures Associates(Zip(f), a, b, c)
  {
    var l, r := ZipSeq(f, ZipSeq(f, a, b), c), ZipSeq(f, a, ZipSeq(f, b, c));
    forall i | 0 <= i < |l|
      ensures l[i] == r[i]
    {
      assert Associates(f, a[i], b[i], c[i]);
    }
    assert l == r;
  }

  lemma {:induction false} ZipCommutes<E(!new)>(f: (E, E) -> E, a: seq<E>, b: seq<E>)
    requires Commutative(f)
    ensures Commutes(Zip(f), a, b)
  {
    var l, r := ZipSeq(f, a, b), ZipSeq(f, b, a);
    forall i | 0 <= i < |l|
      ensures l[i] == r[i]
    {
      assert Commutes(f, a[i], b[i]);
    }
    assert l == r;
  }

  ghost predicate AllOfLength<E>(vs: seq<seq<E>>, m: nat) {
    |vs| > 0 && forall r :: 0 <= r < |vs| ==> |vs[r]| == m
  }

  /** Element i of every array. */
  ghost function Column<E>(vs: seq<seq<E>>, m: nat, i: nat): (c: seq<E>)
    requires AllOfLength(vs, m) && i < m
    ensures |c| == |vs| && forall r :: 0 <= r < |vs| ==> |vs[r]| == m && c[r] == vs[r][i]
  {
    seq(|vs|, r requires 0 <= r < |vs| => assert |vs[r]| == m; vs[r][i])
  }

  /** The element-by-element fold of all arrays: what a reduction is to deliver. */
  ghost function FoldVec<E>(f: (E, E) -> E, vs: seq<seq<E>>, m: nat): (v: seq<E>)
    requires AllOfLength(vs, m)
    ensures |v| == m && forall i :: 0 <= i < m ==> v[i] == Fold(f, Column(vs, m, i))
  {
    seq(m, i requires 0 <= i < m => Fold(f, Column(vs, m, i)))
  }

  lemma {:induction false} ZipFold<E>(f: (E, E) -> E, vs: seq<seq<E>>, m: nat)
    requires AllOfLength(vs, m)
    ensures Fold(Zip(f), vs) == FoldVec(f, vs, m)
    decreases |vs|
  {
    var all := FoldVec(f, vs, m);
    if |vs| == 1 {
      assert |vs[0]| == m;
      forall i | 0 <= i < m
        ensures vs[0][i] == all[i]
      {
        assert Column(vs, m, i) == [vs[0][i]];
      }
    } else {
      var front, last := vs[..|vs| - 1], vs[|vs| - 1];
      ZipFold(f, front, m);
      assert |last| == m;
      forall i | 0 <= i < m
        ensures ZipSeq(f, FoldVec(f, front, m), last)[i] == all[i]
      {
        assert Column(vs, m, i)[..|vs| - 1] == Column(front, m, i);
      }
      assert ZipSeq(f, FoldVec(f, front, m), last) == all;
    }
  }

  /** Reducing the blocks of the arrays gives the block of the reduced array. */
  lemma {:induction false} BlockOfFold<E>(f: (E, E) -> E, vs: seq<seq<E>>, m: nat, b: nat, size: nat)
    requires AllOfLength(vs, m)
    ensures Fold(Zip(f), Pieces(vs, b, size)) == Piece(FoldVec(f, vs, m), b, size)
  {
    hide FoldVec, Column, Zip, PieceLen;
    var ps, len := Pieces(vs, b, size), PieceLen(m, b, size);
    assert AllOfLength(ps, len);
    ZipFold(f, ps, len);
    var l, r := FoldVec(f, ps, len), Piece(FoldVec(f, vs, m), b, size);
    forall i | 0 <= i < len
      ensures l[i] == r[i]
    {
      BlockElement(vs, m, b, size, i);
      PieceElement(FoldVec(f, vs, m), b, size, i);
    }
    assert l == r;
  }

  lemma {:induction false} PieceElement<E>(d: seq<E>, b: nat, size: nat, i: nat)
    requires i < PieceLen(|d|, b, size)
    ensures b * size + i < |d| && Piece(d, b, size)[i] == d[b * size + i]
  {
  }

  lemma {:induction false} BlockElement<E>(vs: seq<seq<E>>, m: nat, b: nat, size: nat, i: nat)
    requires AllOfLength(vs, m) && i < PieceLen(m, b, size) && AllOfLength(Pieces(vs, b, size), PieceLen(m, b, size))
    ensures b * size + i < m && Column(Pieces(vs, b, size), PieceLen(m, b, size), i) == Column(vs, m, b * size + i)
  {
    hide PieceLen, Piece;
    assert |vs[0]| == m;
    PieceElement(vs[0], b, size, i);
    forall r | 0 <= r < |vs|
      ensures Pieces(vs, b, size)[r][i] == vs[r][b * size + i]
    {
      assert |vs[r]| == m;
      PieceElement(vs[r], b, size, i);
    }
  }

  // ---------------------------------------------------------------- the reduction on a host

  /** On one host: block by block, the on-host root gets the fold of its host's arrays. */
  lemma {:induction false} HostVector<E(!new)>(f: (E, E) -> E, job: IntrahostReduce.Job<seq<E>>,
                                               s: IntrahostReduce.State<seq<E>>,
                                               sched: seq<nat>, vs: seq<seq<E>>, m: nat, size: nat)
    requires Associative(f) && Commutative(f) && AllOfLength(vs, m)
    requires IntrahostReduce.ValidJob(job) && IntrahostReduce.Initial(job, s) && job.op == Zip(f)
    requires forall b :: 0 <= b < |job.x| ==> job.x[b] == Pieces(vs, b, size)
    ensures var s' := IntrahostReduce.Run(job, s, sched);
      IntrahostReduce.AllFinished(job, s') ==>
        |s'.out| == |job.x| && forall b :: 0 <= b < |job.x| ==> s'.out[b] == Piece(FoldVec(f, vs, m), b, size)
  {
    hide FoldVec, Zip, Pieces, Piece, Associative, Commutative, IntrahostReduce.Run, IntrahostReduce.AllFinished;
    ZipAlgebra(f);
    IntrahostReduce.ReduceResult(job, s, sched);
    forall b | 0 <= b < |job.x|
      ensures Fold(Zip(f), job.x[b]) == Piece(FoldVec(f, vs, m), b, size)
    {
      BlockOfFold(f, vs, m, b, size);
    }
  }

  /** The hosts' folded arrays. */
  ghost predicate HostArrays<E>(f: (E, E) -> E, xs: seq<seq<E>>, m: nat, local: seq<seq<nat>>, v: seq<seq<E>>) {
    && |v| == |local| && AllOfLength(xs, m)
    && forall h :: 0 <= h < |local| ==>
         local[h] != [] && InRange(local[h], |xs|) && AllOfLength(Select(xs, local[h]), m) &&
         v[h] == FoldVec(f, Select(xs, local[h]), m)
  }

  lemma {:induction false} ArraysFold<E(!new)>(f: (E, E) -> E, xs: seq<seq<E>>, m: nat, local: seq<seq<nat>>,
                                               v: seq<seq<E>>)
    requires Associative(f) && Commutative(f) && |local| > 0 && IsPlacement(local, |xs|)
    requires HostArrays(f, xs, m, local, v)
    ensures AllOfLength(v, m) && FoldVec(f, v, m) == FoldVec(f, xs, m)
  {
    hide FoldVec, Zip, Select, Associative, Commutative, IsPlacement;
    ZipAlgebra(f);
    forall h | 0 <= h < |local|
      ensures v[h] == Fold(Zip(f), Select(xs, local[h]))
    {
      ZipFold(f, Select(xs, local[h]), m);
    }
    assert v == HostFolds(Zip(f), xs, local);
    TwoLevelsAreOne(Zip(f), xs, local);
    assert AllOfLength(v, m);
    ZipFold(f, v, m);
    ZipFold(f, xs, m);
  }
}
