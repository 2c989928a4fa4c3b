/** Host ranks shifted so that the root host has relative rank 0. */
module Ranks {

  /** The relative rank of host `h`. */
  function ToRelative(h: nat, root: nat, n: nat): (r: nat)
    requires h < n && root < n
    ensures r < n
  {
    if root <= h then h - root else h + n - root
  }

  /** The host of relative rank `r`. */
  function ToAbsolute(r: nat, root: nat, n: nat): (h: nat)
    requires r < n && root < n
    ensures h < n && ToRelative(h, root, n) == r
  {
    if r + root < n then r + root else r + root - n
  }

  /** The source writes the two maps as `(X - root + n) % n` and `(X_r + root) % n`. */
  lemma {:induction false} ModuloForms(x: nat, root: nat, n: nat)
    requires x < n && root < n
    ensures (x - root + n) % n == ToRelative(x, root, n)
    ensures (x + root) % n == ToAbsolute(x, root, n)
    ensures ToAbsolute(ToRelative(x, root, n), root, n) == x
  {
    ModOnce(x - root + n, n);
    ModOnce(x + root, n);
  }

  lemma {:induction false} ModOnce(a: nat, n: nat)
    requires a < 2 * n
    ensures a % n == if a < n then a else a - n
  {
    if a >= n {
      assert a == n * 1 + (a - n);
      assert (a - n) % n == a - n;
    }
  }

  /** A table over hosts, reindexed by relative rank. */
  function Shifted<X>(s: seq<X>, root: nat): (r: seq<X>)
    requires root < |s|
    ensures |r| == |s| && forall v :: 0 <= v < |s| ==> r[v] == s[ToAbsolute(v, root, |s|)]
  {
    seq(|s|, v requires 0 <= v < |s| => s[ToAbsolute(v, root, |s|)])
  }
}
