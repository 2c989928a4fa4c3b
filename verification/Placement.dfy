/** Which ranks run on which host, and buffers that list the ranks host by host. */
module Placement {
  import opened Layout

  /** `groupProcIDOnHost`: every one of the n ranks is on exactly one host, at one place. */
  ghost predicate IsPlacement(procs: seq<seq<nat>>, n: nat) {
    && (forall h :: 0 <= h < |procs| ==> NoDuplicates(procs[h]) && InRange(procs[h], n))
    && (forall h, k :: 0 <= h < k < |procs| ==> Apart(procs[h], procs[k]))
    && (forall r: nat :: r < n ==> Somewhere(procs, r))
  }

  ghost predicate Somewhere(procs: seq<seq<nat>>, r: nat) {
    exists h :: 0 <= h < |procs| && r in procs[h]
  }

  ghost predicate Apart(a: seq<nat>, b: seq<nat>) {
    forall x :: x in a ==> x !in b
  }

  lemma {:induction false} FlatMembers(procs: seq<seq<nat>>, order: seq<nat>, x: nat)
    requires InRange(order, |procs|)
    ensures x in Flat(procs, order) <==> exists i :: 0 <= i < |order| && x in procs[order[i]]
    decreases |order|
  {
    hide Flat;
    if order == [] {
      FlatOfNone(procs);
    } else {
      var front, last := order[..|order| - 1], order[|order| - 1];
      FlatMembers(procs, front, x);
      FlatStep(procs, order);
      assert forall i :: 0 <= i < |front| ==> front[i] == order[i];
      assert x in procs[last] ==> x in procs[order[|order| - 1]];
    }
  }

  lemma {:induction false} AppendDistinct(a: seq<nat>, b: seq<nat>)
    requires NoDuplicates(a) && NoDuplicates(b) && Apart(a, b)
    ensures NoDuplicates(a + b)
  {
    forall i, j | 0 <= i < |a| && 0 <= j < |b|
      ensures a[i] != b[j]
    {
      assert a[i] in a && b[j] in b;
    }
  }

  lemma {:induction false} FlatDistinct(procs: seq<seq<nat>>, order: seq<nat>, n: nat)
    requires IsPlacement(procs, n) && InRange(order, |procs|) && NoDuplicates(order)
    ensures NoDuplicates(Flat(procs, order)) && InRange(Flat(procs, order), n)
    decreases |order|
  {
    hide Flat;
    if order == [] {
      FlatOfNone(procs);
    } else {
      var front, last := order[..|order| - 1], order[|order| - 1];
      FlatDistinct(procs, front, n);
      FlatStep(procs, order);
      forall x | x in Flat(procs, front)
        ensures x !in procs[last]
      {
        FlatMembers(procs, front, x);
        var i :| 0 <= i < |front| && x in procs[front[i]];
        assert order[i] == front[i] != last;
        assert Apart(procs[if front[i] < last then front[i] else last],
                     procs[if front[i] < last then last else front[i]]);
      }
      AppendDistinct(Flat(procs, front), procs[last]);
    }
  }

  lemma {:induction false} FlatOfNone<T>(data: seq<seq<T>>)
    ensures Flat(data, []) == []
  {
  }

  lemma {:induction false} FlatStep<T>(data: seq<seq<T>>, order: seq<nat>)
    requires InRange(order, |data|) && order != []
    ensures InRange(order[..|order| - 1], |data|)
    ensures Flat(data, order) == Flat(data, order[..|order| - 1]) + data[order[|order| - 1]]
  {
  }

  /** Listing the hosts in any order lists every rank once. */
  lemma {:induction false} RanksInOrder(procs: seq<seq<nat>>, order: seq<nat>, n: nat)
    requires IsPlacement(procs, n) && IsPermutation(order, |procs|)
    ensures IsPermutation(Flat(procs, order), n)
  {
    hide Flat;
    FlatDistinct(procs, order, n);
    forall r: nat | r < n
      ensures r in Flat(procs, order)
    {
      assert Somewhere(procs, r);
      var h :| 0 <= h < |procs| && r in procs[h];
      assert h in order;
      var i :| 0 <= i < |order| && order[i] == h;
      FlatMembers(procs, order, r);
    }
  }

  lemma {:induction false} PlacedRanks(procs: seq<seq<nat>>, n: nat, h: nat)
    requires IsPlacement(procs, n) && h < |procs|
    ensures InRange(procs[h], n)
  {
  }

  /** What every host contributes: its ranks' data one after the other. */
  function HostData<T>(data: seq<seq<T>>, procs: seq<seq<nat>>): (hs: seq<seq<T>>)
    requires forall h :: 0 <= h < |procs| ==> InRange(procs[h], |data|)
    ensures |hs| == |procs| && forall h :: 0 <= h < |procs| ==>
      InRange(procs[h], |data|) && hs[h] == Flat(data, procs[h])
  {
    seq(|procs|, h requires 0 <= h < |procs| => assert InRange(procs[h], |data|); Flat(data, procs[h]))
  }

  /** Host by host is rank by rank. */
  lemma {:induction false} FlatOfHosts<T>(data: seq<seq<T>>, procs: seq<seq<nat>>, order: seq<nat>)
    requires (forall h :: 0 <= h < |procs| ==> InRange(procs[h], |data|)) && InRange(order, |procs|)
    ensures InRange(Flat(procs, order), |data|)
    ensures Flat(HostData(data, procs), order) == Flat(data, Flat(procs, order))
    decreases |order|
  {
    hide Flat, HostData;
    FlatOfNone(procs);
    FlatOfNone(HostData(data, procs));
    FlatOfNone(data);
    if order != [] {
      var front, last := order[..|order| - 1], order[|order| - 1];
      FlatOfHosts(data, procs, front);
      FlatStep(procs, order);
      FlatStep(HostData(data, procs), order);
      FlatConcat(data, Flat(procs, front), procs[last]);
    }
  }
}
