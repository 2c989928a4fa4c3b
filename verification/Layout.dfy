/**
 Buffers laid out as the concatenation of what each of a list of hosts contributes, and
 the byte counts that go with them.
 */
module Layout {

  /** The hosts of a communicator in some order: every one once. */
  ghost predicate IsPermutation(order: seq<nat>, n: nat) {
    && NoDuplicates(order)
    && InRange(order, n)
    && (forall h: nat :: h < n ==> h in order)
  }

  ghost predicate NoDuplicates<X>(s: seq<X>) {
    forall i, j :: 0 <= i < j < |s| ==> s[i] != s[j]
  }

  ghost predicate InRange(order: seq<nat>, n: nat) {
    forall i :: 0 <= i < |order| ==> order[i] < n
  }

  /** The number of bytes that the hosts in `order` contribute. */
  function Bytes(sizes: seq<nat>, order: seq<nat>): nat
    requires forall i :: 0 <= i < |order| ==> order[i] < |sizes|
  {
    if order == [] then 0 else Bytes(sizes, order[..|order| - 1]) + sizes[order[|order| - 1]]
  }

  lemma {:induction false} BytesStep(sizes: seq<nat>, order: seq<nat>, k: nat)
    requires k < |order| && forall i :: 0 <= i < |order| ==> order[i] < |sizes|
    ensures Bytes(sizes, order[..k + 1]) == Bytes(sizes, order[..k]) + sizes[order[k]]
    ensures order[..0] == [] && order[..|order|] == order
  {
    assert order[..k + 1][..k] == order[..k];
  }

  /** The contributions of the hosts in `order`, one after the other. */
  function Flat<T>(data: seq<seq<T>>, order: seq<nat>): seq<T>
    requires forall i :: 0 <= i < |order| ==> order[i] < |data|
  {
    if order == [] then [] else Flat(data, order[..|order| - 1]) + data[order[|order| - 1]]
  }

  function Sizes<T>(data: seq<seq<T>>): (sizes: seq<nat>)
    ensures |sizes| == |data|
  {
    seq(|data|, h requires 0 <= h < |data| => |data[h]|)
  }

  lemma {:induction false} FlatLength<T>(data: seq<seq<T>>, order: seq<nat>)
    requires InRange(order, |data|)
    ensures |Flat(data, order)| == Bytes(Sizes(data), order)
    decreases |order|
  {
    if order != [] {
      FlatLength(data, order[..|order| - 1]);
    }
  }

  lemma {:induction false} LastOfBoth<X>(a: seq<X>, b: seq<X>)
    requires b != []
    ensures (a + b)[..|a + b| - 1] == a + b[..|b| - 1] && (a + b)[|a + b| - 1] == b[|b| - 1]
  {
  }

  lemma {:induction false} Regrouped<X>(x: seq<X>, y: seq<X>, z: seq<X>)
    ensures (x + y) + z == x + (y + z)
  {
  }

  lemma {:induction false} FlatConcat<T>(data: seq<seq<T>>, a: seq<nat>, b: seq<nat>)
    requires InRange(a, |data|) && InRange(b, |data|)
    ensures Flat(data, a + b) == Flat(data, a) + Flat(data, b)
    decreases |b|
  {
    if b == [] {
      assert a + b == a;
    } else {
      var front, last := b[..|b| - 1], b[|b| - 1];
      LastOfBoth(a, b);
      FlatConcat(data, a, front);
      Regrouped(Flat(data, a), Flat(data, front), data[last]);
    }
  }

  lemma {:induction false} BytesConcat(sizes: seq<nat>, a: seq<nat>, b: seq<nat>)
    requires InRange(a, |sizes|) && InRange(b, |sizes|)
    ensures Bytes(sizes, a + b) == Bytes(sizes, a) + Bytes(sizes, b)
    decreases |b|
  {
    if b == [] {
      assert a + b == a;
    } else {
      assert (a + b)[..|a + b| - 1] == a + b[..|b| - 1];
      BytesConcat(sizes, a, b[..|b| - 1]);
    }
  }

  /** Hosts 0 to n-1 in rank order. */
  function Ascending(n: nat): (s: seq<nat>)
    ensures |s| == n && forall i :: 0 <= i < n ==> s[i] == i
  {
    seq(n, i requires 0 <= i => i)
  }

  /** The numbers from a up to b. */
  function Span(a: nat, b: nat): (s: seq<nat>)
    requires a <= b
    ensures |s| == b - a && forall i :: 0 <= i < |s| ==> s[i] == a + i
  {
    seq(b - a, i requires 0 <= i => a + i)
  }

  lemma {:induction false} BytesWithout(sizes: seq<nat>, order: seq<nat>, i: nat)
    requires InRange(order, |sizes|) && i < |order|
    ensures InRange(order[..i] + order[i + 1..], |sizes|)
    ensures Bytes(sizes, order) == Bytes(sizes, order[..i] + order[i + 1..]) + sizes[order[i]]
  {
    var left, right, x := order[..i], order[i + 1..], [order[i]];
    assert InRange(left, |sizes|) && InRange(right, |sizes|) && InRange(x, |sizes|);
    assert order == (left + x) + right;
    BytesConcat(sizes, left + x, right);
    BytesConcat(sizes, left, x);
    BytesConcat(sizes, left, right);
  }

  lemma {:induction false} RestIsPermutation(order: seq<nat>, n: nat, i: nat)
    requires n > 0 && IsPermutation(order, n) && i < |order| && order[i] == n - 1
    ensures IsPermutation(order[..i] + order[i + 1..], n - 1)
  {
    var rest := order[..i] + order[i + 1..];
    forall h: nat | h < n - 1
      ensures h in rest
    {
      assert h in order;
      var j :| 0 <= j < |order| && order[j] == h;
      assert rest[if j < i then j else j - 1] == h;
    }
  }

  /** Byte counts do not depend on the order of the hosts. */
  lemma {:induction false} BytesOfPermutation(sizes: seq<nat>, order: seq<nat>, n: nat)
    requires IsPermutation(order, n) && n <= |sizes|
    ensures Bytes(sizes, order) == Bytes(sizes, Ascending(n))
    decreases n
  {
    if n > 0 {
      assert n - 1 in order;
      var i :| 0 <= i < |order| && order[i] == n - 1;
      RestIsPermutation(order, n, i);
      BytesWithout(sizes, order, i);
      BytesOfPermutation(sizes, order[..i] + order[i + 1..], n - 1);
      assert Ascending(n)[..n - 1] == Ascending(n - 1);
    }
  }

  /** A permutation of the hosts has as many entries as there are hosts. */
  lemma {:induction false} PermutationLength(order: seq<nat>, n: nat)
    requires IsPermutation(order, n)
    ensures |order| == n
    decreases n
  {
    assert |order| > 0 ==> order[0] < n;
    if n > 0 {
      assert n - 1 in order;
      var i :| 0 <= i < |order| && order[i] == n - 1;
      RestIsPermutation(order, n, i);
      PermutationLength(order[..i] + order[i + 1..], n - 1);
    }
  }

  lemma {:induction false} PermutationRange(order: seq<nat>, n: nat, m: nat)
    requires IsPermutation(order, n) && n <= m
    ensures InRange(order, m)
  {
  }

  /** Some of the hosts, each at most once, contribute no more than all of them. */
  lemma {:induction false} BytesOfSome(sizes: seq<nat>, order: seq<nat>, n: nat)
    requires NoDuplicates(order) && InRange(order, n) && n <= |sizes|
    ensures Bytes(sizes, order) <= Bytes(sizes, Ascending(n))
    decreases n
  {
    if n > 0 {
      assert Ascending(n)[..n - 1] == Ascending(n - 1);
      if i :| 0 <= i < |order| && order[i] == n - 1 {
        BytesWithout(sizes, order, i);
        BytesOfSome(sizes, order[..i] + order[i + 1..], n - 1);
      } else {
        BytesOfSome(sizes, order, n - 1);
      }
    }
  }

  // ---------------------------------------------------------------- memory

  /** `len` bytes of a buffer from offset `off`. */
  datatype Segment = Segment(off: nat, len: nat)

  function Read<T>(buf: seq<T>, seg: Segment): seq<T> {
    if seg.off + seg.len <= |buf| then buf[seg.off..seg.off + seg.len] else []
  }

  function Write<T>(buf: seq<T>, off: nat, m: seq<T>): (r: seq<T>)
    ensures |r| == |buf|
  {
    if off + |m| <= |buf| then buf[..off] + m + buf[off + |m|..] else buf
  }

  lemma {:induction false} ReadFront<T>(buf: seq<T>, a: seq<T>)
    requires a <= buf
    ensures Read(buf, Segment(0, |a|)) == a
  {
  }

  lemma {:induction false} WriteAfter<T>(buf: seq<T>, a: seq<T>, b: seq<T>)
    requires a <= buf && |a| + |b| <= |buf|
    ensures a + b <= Write(buf, |a|, b)
  {
    assert buf[..|a|] == a;
  }

  lemma {:induction false} WriteFront<T>(buf: seq<T>, b: seq<T>)
    requires |b| <= |buf|
    ensures b <= Write(buf, 0, b)
  {
  }

  /** A block inside the front of a buffer. */
  lemma {:induction false} ReadInside<T>(buf: seq<T>, a: seq<T>, b: seq<T>)
    requires a + b <= buf
    ensures Read(buf, Segment(|a|, |b|)) == b
  {
  }

  /** The `len` bytes of a from `at` on are those of b from `from` on. */
  ghost predicate SameBytes<T>(a: seq<T>, at: nat, b: seq<T>, from: nat, len: nat) {
    at + len <= |a| && from + len <= |b| && a[at..at + len] == b[from..from + len]
  }

  /** The memory has `len` bytes of the send buffer from `from` on, and behind them what was there before. */
  ghost predicate Received<T>(sendbuf: seq<T>, from: nat, len: nat, mem: seq<T>, before: seq<T>) {
    && |mem| == |before| >= len && |sendbuf| >= from + len
    && (forall j :: 0 <= j < len ==> mem[j] == sendbuf[from + j])
    && forall j :: len <= j < |mem| ==> mem[j] == before[j]
  }

  lemma {:induction false} ReceivedIs<T>(sendbuf: seq<T>, from: nat, len: nat, mem: seq<T>, before: seq<T>)
    requires from + len <= |sendbuf| && len <= |before|
    ensures Received(sendbuf, from, len, mem, before) <==> mem == Write(before, 0, Read(sendbuf, Segment(from, len)))
  {
    var m := Read(sendbuf, Segment(from, len));
    assert Received(sendbuf, from, len, Write(before, 0, m), before);
    if Received(sendbuf, from, len, mem, before) {
      assert mem == Write(before, 0, m);
    }
  }

  /** A part of a part. */
  lemma {:induction false} PartOfPart<T>(s: seq<T>, at: nat, total: nat, from: nat, len: nat)
    requires at + total <= |s| && from + len <= total
    ensures s[at..at + total][from..from + len] == s[at + from..at + from + len]
    ensures Read(Read(s, Segment(at, total)), Segment(from, len)) == Read(s, Segment(at + from, len))
  {
    var part, l, r := s[at..at + total], s[at..at + total][from..from + len], s[at + from..at + from + len];
    forall i | 0 <= i < len
      ensures l[i] == r[i]
    {
      assert l[i] == part[from + i];
    }
    assert l == r;
  }

  lemma {:induction false} NothingWritten<T>(buf: seq<T>)
    ensures Write(buf, 0, []) == buf
  {
  }
}
