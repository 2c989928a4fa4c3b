/** The pool of barrier objects: `genericSMPBarrierSetup` and `barrierFree`. */
module BarrierPool {

  /** What identifies a communicator on a host. */
  datatype Key = Key(contextID: int, commRoot: int)

  datatype Element = Element(inUse: bool, key: Key, nAllocated: nat, nFreed: nat, commSize: nat)

  /** A place in the pools: what `barrierControl` points to. */
  datatype Place = Place(pool: nat, ele: nat)

  datatype Result = Got(place: Place) | OutOfResource | BadParam

  type Pools = seq<seq<Element>>

  predicate InPools(pools: Pools, at: Place) { at.pool < |pools| && at.ele < |pools[at.pool]| }

  function Get(pools: Pools, at: Place): Element
    requires InPools(pools, at)
  {
    pools[at.pool][at.ele]
  }

  function Put(pools: Pools, at: Place, e: Element): (pools': Pools)
    requires InPools(pools, at)
    ensures |pools'| == |pools| && forall b :: InPools(pools', b) <==> InPools(pools, b)
    ensures forall b :: InPools(pools, b) ==> Get(pools', b) == if b == at then e else Get(pools, b)
  {
    pools[at.pool := pools[at.pool][at.ele := e]]
  }

  /** Is this the element that the communicator is using? */
  predicate Used(pools: Pools, at: Place, key: Key) {
    InPools(pools, at) && Get(pools, at).inUse && Get(pools, at).key == key
  }

  /** Of all that the communicator is using, the one that a scan of the pools in order meets first. */
  ghost predicate FirstUsed(pools: Pools, at: Place, key: Key) {
    && Used(pools, at, key)
    && forall b :: Used(pools, b, key) ==> at.pool < b.pool || (at.pool == b.pool && at.ele <= b.ele)
  }

  ghost predicate Nowhere(pools: Pools, key: Key) { forall at :: !Used(pools, at, key) }

  predicate Full(pool: seq<Element>) { forall i :: 0 <= i < |pool| ==> pool[i].inUse }

  ghost predicate AllFull(pools: Pools) { forall i :: 0 <= i < |pools| ==> Full(pools[i]) }

  /** The pools at most d places on from the last used, round robin, have nothing free. */
  ghost predicate FullUpto(pools: Pools, last: nat, d: nat) {
    forall i :: 0 <= i < |pools| && (last < i <= last + d || i + |pools| <= last + d) ==> Full(pools[i])
  }

  /** The first free element of the first pool, going round from the one after the last used, that has one. */
  ghost predicate Nearest(pools: Pools, last: nat, at: Place) {
    && InPools(pools, at) && !Get(pools, at).inUse && (forall i :: 0 <= i < at.ele ==> pools[at.pool][i].inUse)
    && forall i :: 0 <= i < |pools| && (if last < at.pool then last < i < at.pool else last < i || i < at.pool) ==>
         Full(pools[i])
  }

  // ---------------------------------------------------------------- what the two operations do

  /** One call of the set-up, before and after. */
  ghost predicate SetsUp(pools: Pools, first: bool, key: Key, commSize: nat, pools': Pools, result: Result) {
    match result
    case Got(at) =>
      InPools(pools, at) &&
      var e := Get(pools, at);
      if Used(pools, at, key)
      then pools' == Put(pools, at, e.(nAllocated := e.nAllocated + 1, commSize := commSize))
      else first && Nowhere(pools, key) && !e.inUse && pools' == Put(pools, at, Element(true, key, 1, 0, commSize))
    case OutOfResource => first && Nowhere(pools, key) && AllFull(pools) && pools' == pools
    case BadParam => !first && Nowhere(pools, key) && pools' == pools
  }

  /** One call of the free, before and after: the last free recycles the element. */
  ghost predicate Frees(pools: Pools, at: Place, pools': Pools)
    requires InPools(pools, at)
  {
    var e := Get(pools, at);
    pools' == Put(pools, at, e.(nFreed := e.nFreed + 1, inUse := e.inUse && e.nFreed + 1 != e.commSize))
  }

  class Pool {
    var pools: Pools
    var lastPoolUsed: nat

    ghost predicate Valid()
      reads this
    {
      lastPoolUsed < |pools|
    }

    constructor (elements: Pools)
      requires |elements| > 0
      ensures Valid() && pools == elements && lastPoolUsed == 0
    {
      pools, lastPoolUsed := elements, 0;
    }

    /** The element in use by this communicator, scanning the pools in order. */
    method Find(key: Key) returns (found: bool, at: Place)
      ensures if found then FirstUsed(pools, at, key) else Nowhere(pools, key)
    {
      found, at := false, Place(0, 0);
      for pl := 0 to |pools|
        invariant !found && forall b :: Used(pools, b, key) ==> b.pool >= pl
      {
        for ele := 0 to |pools[pl]|
          invariant !found && forall b :: Used(pools, b, key) ==> b.pool > pl || (b.pool == pl && b.ele >= ele)
        {
          if pools[pl][ele].inUse && pools[pl][ele].key == key {
            return true, Place(pl, ele);
          }
        }
      }
    }

    /** A free element, trying the pools round robin from the one after the last used. */
    method FindFree() returns (found: bool, at: Place)
      requires Valid()
      ensures found ==> Nearest(pools, lastPoolUsed, at)
      ensures !found ==> AllFull(pools) && forall b :: InPools(pools, b) ==> Get(pools, b).inUse
    {
      found, at := false, Place(0, 0);
      var poolIndex, poolCnt := lastPoolUsed, 0;
      while !found && poolCnt < |pools|
        invariant 0 <= poolCnt <= |pools| && 0 <= poolIndex < |pools|
        invariant poolIndex == lastPoolUsed + poolCnt || poolIndex + |pools| == lastPoolUsed + poolCnt
        invariant !found ==> FullUpto(pools, lastPoolUsed, poolCnt)
        invariant found ==> Nearest(pools, lastPoolUsed, at)
      {
        poolIndex := poolIndex + 1;
        if poolIndex == |pools| {
          poolIndex := 0;
        }
        poolCnt := poolCnt + 1;
        var ele := FreeIn(pools[poolIndex]);
        if ele < |pools[poolIndex]| {
          found, at := true, Place(poolIndex, ele);
        }
      }
    }

    /** `genericSMPBarrierSetup` */
    method Setup(firstInstanceOfContext: bool, key: Key, commSize: nat) returns (result: Result)
      requires Valid()
      modifies this
      ensures Valid() && SetsUp(old(pools), firstInstanceOfContext, key, commSize, pools, result)
      ensures result.Got? && old(Nowhere(pools, key)) ==>
        && lastPoolUsed == result.place.pool
        && Nearest(old(pools), old(lastPoolUsed), result.place)
        && ((exists i :: 0 <= i < |old(pools)| && i != old(lastPoolUsed) && !Full(old(pools)[i])) ==>
              result.place.pool != old(lastPoolUsed))
      ensures result.OutOfResource? ==> forall b :: InPools(pools, b) ==> Get(pools, b).inUse
      ensures result.Got? && !old(Nowhere(pools, key)) ==> FirstUsed(old(pools), result.place, key)
      ensures !(result.Got? && old(Nowhere(pools, key))) ==> lastPoolUsed == old(lastPoolUsed)
    {
      var first := firstInstanceOfContext;
      if first {
        var known, _ := Find(key);
        if known {
          first := false;
        }
      }
      if first {
        var found, at := FindFree();
        if !found {
          return OutOfResource;
        }
        pools := Put(pools, at, Element(true, key, 1, 0, commSize));
        lastPoolUsed := at.pool;
        return Got(at);
      }
      var found, at := Find(key);
      if !found {
        return BadParam;
      }
      var e := Get(pools, at);
      pools := Put(pools, at, e.(nAllocated := e.nAllocated + 1, commSize := commSize));
      return Got(at);
    }

    /** `barrierFree` of a process whose `barrierControl` is `at`. */
    method Free(at: Place)
      requires Valid() && InPools(pools, at)
      modifies this
      ensures Valid() && Frees(old(pools), at, pools) && lastPoolUsed == old(lastPoolUsed)
    {
      var e := Get(pools, at);
      e := e.(nFreed := e.nFreed + 1);
      if e.nFreed == e.commSize {
        e := e.(inUse := false);
      }
      pools := Put(pools, at, e);
    }
  }

  /** The first element of a pool that is not in use. */
  method FreeIn(pool: seq<Element>) returns (ele: nat)
    ensures ele <= |pool| && (ele < |pool| ==> !pool[ele].inUse) && forall i :: 0 <= i < ele ==> pool[i].inUse
    ensures ele == |pool| ==> Full(pool)
  {
    ele := 0;
    while ele < |pool| && pool[ele].inUse
      invariant ele <= |pool| && forall i :: 0 <= i < ele ==> pool[i].inUse
    {
      ele := ele + 1;
    }
  }

  // ---------------------------------------------------------------- runs

  /** A communicator that is alive: how many members have set up and freed, and what they got. */
  datatype Life = Life(inited: nat, freed: nat, at: Place)

  datatype Event = SetUp(key: Key, first: bool, result: Result) | FreeUp(key: Key)

  /** The communicators that are alive after an event; a life ends when all local members have freed. */
  ghost function After(table: map<Key, Life>, ev: Event, size: Key -> nat): map<Key, Life> {
    var k := ev.key;
    match ev
    case SetUp(_, _, Got(at)) =>
      table[k := if k in table then Life(table[k].inited + 1, table[k].freed, at) else Life(1, 0, at)]
    case SetUp(_, _, _) => table
    case FreeUp(_) =>
      if k !in table then table
      else if table[k].freed + 1 == size(k) then table - {k}
      else table[k := Life(table[k].inited, table[k].freed + 1, table[k].at)]
  }

  /** Members set up at most once in a life, and free only what they have set up. */
  ghost predicate Allowed(table: map<Key, Life>, ev: Event, size: Key -> nat) {
    match ev
    case SetUp(k, _, _) => size(k) >= 1 && (k in table ==> table[k].inited < size(k))
    case FreeUp(k) => k in table && table[k].freed < table[k].inited
  }

  /** The event as the two methods make it happen. */
  ghost predicate Happens(pools: Pools, table: map<Key, Life>, ev: Event, size: Key -> nat, pools': Pools) {
    match ev
    case SetUp(k, first, result) => SetsUp(pools, first, k, size(k), pools', result)
    case FreeUp(k) => k in table && InPools(pools, table[k].at) && Frees(pools, table[k].at, pools')
  }

  ghost function TableAfter(evs: seq<Event>, size: Key -> nat): map<Key, Life> {
    if evs == [] then map[] else After(TableAfter(evs[..|evs| - 1], size), evs[|evs| - 1], size)
  }

  ghost predicate IsRun(states: seq<Pools>, evs: seq<Event>, size: Key -> nat) {
    && |states| == |evs| + 1
    && (forall at :: InPools(states[0], at) ==> !Get(states[0], at).inUse)
    && (forall i {:trigger evs[i]} :: 0 <= i < |evs| ==>
          Allowed(TableAfter(evs[..i], size), evs[i], size) &&
          Happens(states[i], TableAfter(evs[..i], size), evs[i], size, states[i + 1]))
  }

  /** The pools and the communicators that are alive match one to one. */
  ghost predicate Agree(pools: Pools, table: map<Key, Life>, size: Key -> nat) {
    && (forall k :: k in table ==> LifeIs(pools, table[k], k, size(k)))
    && (forall at :: InPools(pools, at) && Get(pools, at).inUse ==> Owned(table, at, Get(pools, at).key))
  }

  ghost predicate LifeIs(pools: Pools, life: Life, k: Key, size: nat) {
    && Used(pools, life.at, k)
    && Get(pools, life.at) == Element(true, k, life.inited, life.freed, size)
    && life.freed <= life.inited <= size && life.freed < size
  }

  ghost predicate Owned(table: map<Key, Life>, at: Place, k: Key) { k in table && table[k].at == at }

  lemma {:induction false} SetUpKeeps(pools: Pools, table: map<Key, Life>, ev: Event, size: Key -> nat, pools': Pools)
    requires Agree(pools, table, size) && ev.SetUp? && Allowed(table, ev, size)
    requires Happens(pools, table, ev, size, pools')
    ensures Agree(pools', After(table, ev, size), size)
    ensures ev.result.Got? && ev.key in table ==> ev.result.place == table[ev.key].at
    ensures ev.result.OutOfResource? ==> ev.key !in table && AllFull(pools)
    ensures ev.result.BadParam? ==> ev.key !in table && !ev.first
  {
    var k := ev.key;
    assert k in table ==> LifeIs(pools, table[k], k, size(k));
    if ev.result.Got? {
      var at, table' := ev.result.place, After(table, ev, size);
      if Used(pools, at, k) {
        assert Owned(table, at, k);
      }
      forall j | j in table'
        ensures LifeIs(pools', table'[j], j, size(j))
      {
        if j != k {
          assert LifeIs(pools, table[j], j, size(j));
        }
      }
      forall b | InPools(pools', b) && Get(pools', b).inUse
        ensures Owned(table', b, Get(pools', b).key)
      {
        if b != at {
          assert Owned(table, b, Get(pools, b).key);
        }
      }
    }
  }

  lemma {:induction false} FreeKeeps(pools: Pools, table: map<Key, Life>, ev: Event, size: Key -> nat, pools': Pools)
    requires Agree(pools, table, size) && ev.FreeUp? && Allowed(table, ev, size)
    requires Happens(pools, table, ev, size, pools')
    ensures Agree(pools', After(table, ev, size), size)
    ensures Used(pools', table[ev.key].at, ev.key) <==> table[ev.key].freed + 1 < size(ev.key)
  {
    var k := ev.key;
    var at, table' := table[k].at, After(table, ev, size);
    assert LifeIs(pools, table[k], k, size(k));
    forall j | j in table'
      ensures LifeIs(pools', table'[j], j, size(j))
    {
      assert LifeIs(pools, table[j], j, size(j));
    }
    forall b | InPools(pools', b) && Get(pools', b).inUse
      ensures Owned(table', b, Get(pools', b).key)
    {
      assert Owned(table, b, Get(pools, b).key);
    }
  }

  lemma {:induction false} RunAgrees(states: seq<Pools>, evs: seq<Event>, size: Key -> nat, i: nat)
    requires IsRun(states, evs, size) && i <= |evs|
    ensures Agree(states[i], TableAfter(evs[..i], size), size)
    decreases i
  {
    hide Agree, Allowed, Happens, After;
    if i == 0 {
      assert evs[..0] == [];
      NobodyYet(states[0], size);
    } else {
      RunAgrees(states, evs, size, i - 1);
      assert evs[..i][..i - 1] == evs[..i - 1];
      if evs[i - 1].SetUp? {
        SetUpKeeps(states[i - 1], TableAfter(evs[..i - 1], size), evs[i - 1], size, states[i]);
      } else {
        FreeKeeps(states[i - 1], TableAfter(evs[..i - 1], size), evs[i - 1], size, states[i]);
      }
    }
  }

  lemma {:induction false} NobodyYet(pools: Pools, size: Key -> nat)
    requires forall at :: InPools(pools, at) ==> !Get(pools, at).inUse
    ensures Agree(pools, map[], size)
  {
  }

  /**
   In every run in which each member sets up and frees once per life of a communicator: at most
   one element in use carries a given key; all members of a life get the same element; it is
   recycled exactly by the last member's free; and the pool reports that it is out of resources
   only when every element is in use.
   */
  lemma {:induction false} PoolIsSound(states: seq<Pools>, evs: seq<Event>, size: Key -> nat, i: nat)
    requires IsRun(states, evs, size) && i < |evs|
    ensures forall at, b, k :: Used(states[i], at, k) && Used(states[i], b, k) ==> at == b
    ensures var table, ev := TableAfter(evs[..i], size), evs[i];
      match ev
      case SetUp(k, _, Got(at)) => k in table ==> at == table[k].at
      case SetUp(k, _, OutOfResource) => k !in table && forall b :: InPools(states[i], b) ==> Get(states[i], b).inUse
      case SetUp(k, first, BadParam) => k !in table && !first
      case FreeUp(k) => k in table && (Used(states[i + 1], table[k].at, k) <==> table[k].freed + 1 < size(k))
  {
    hide Allowed, Happens, After, TableAfter, Frees, SetsUp;
    RunAgrees(states, evs, size, i);
    var table, ev := TableAfter(evs[..i], size), evs[i];
    forall at, b, k | Used(states[i], at, k) && Used(states[i], b, k)
      ensures at == b
    {
      assert Owned(table, at, k) && Owned(table, b, k);
    }
    if ev.SetUp? {
      SetUpKeeps(states[i], table, ev, size, states[i + 1]);
    } else {
      FreedIsLive(table, ev, size);
      FreeKeeps(states[i], table, ev, size, states[i + 1]);
    }
  }

  lemma {:induction false} FreedIsLive(table: map<Key, Life>, ev: Event, size: Key -> nat)
    requires ev.FreeUp? && Allowed(table, ev, size)
    ensures ev.key in table
  {
  }
}
