/**
 All ranks together running `ulm_alltoallv`.  A send is synchronous: it is complete only when its
 receive is posted too and the bytes have arrived.  A rank posts the next request only into a slot
 that is free or whose request is complete, so the windows could hold each other up; the two orders
 prevent it.
 */
module AllToAllVRun {
  import opened Layout
  import opened Network
  import opened CopyOut
  import opened StripedGather
  import opened AllToAllV

  /** How many requests of its order a rank has posted, and the partners whose requests it has found complete. */
  datatype Side = Side(posted: nat, freed: set<nat>)

  /** `got[q]` lists the ranks whose bytes have arrived at q. */
  datatype State = State(send: seq<Side>, recv: seq<Side>, got: seq<seq<nat>>)

  /**
   Rank `rank` posts its next send or receive, into a free slot or into that of a complete request;
   or the bytes of `from` arrive at `to`.
   */
  datatype Action = Post(rank: nat, sending: bool, freeing: Option<nat>) | Deliver(from: nat, to: nat)

  function GroupStart(r: nat): (s: nat)
    ensures s <= r
  {
    r / MAX_CONCURRENT * MAX_CONCURRENT
  }

  /** The order in which a rank posts. */
  function OrderOf(n: nat, r: nat, sending: bool): (order: seq<nat>)
    requires r < n
    ensures |order| == n
  {
    if sending then SendSeq(n, GroupStart(r)) else RecvSeq(n, GroupStart(r))
  }

  function SideOf(st: State, r: nat, sending: bool): Side
    requires r < |st.send| == |st.recv|
  {
    if sending then st.send[r] else st.recv[r]
  }

  ghost predicate Shaped(st: State, n: nat) {
    && |st.send| == |st.recv| == |st.got| == n
    && forall r :: 0 <= r < n ==> st.send[r].posted <= n && st.recv[r].posted <= n
  }

  /** The partners to which the requests of a rank are posted. */
  ghost function PostedTo(st: State, n: nat, r: nat, sending: bool): set<nat>
    requires Shaped(st, n) && r < n
  {
    Members(OrderOf(n, r, sending)[..SideOf(st, r, sending).posted])
  }

  ghost function Members(s: seq<nat>): (m: set<nat>)
    ensures forall x :: x in m <==> x in s
  {
    set x | x in s
  }

  /** Both the send of p for q and the receive of q for p are posted. */
  ghost predicate Matched(st: State, n: nat, p: nat, q: nat)
    requires Shaped(st, n) && p < n && q < n
  {
    q in PostedTo(st, n, p, true) && p in PostedTo(st, n, q, false)
  }

  ghost predicate Arrived(st: State, n: nat, p: nat, q: nat)
    requires Shaped(st, n) && q < n
  {
    p in st.got[q]
  }

  ghost predicate IsComplete(st: State, n: nat, r: nat, sending: bool, q: nat)
    requires Shaped(st, n) && r < n && q < n
  {
    if sending then Arrived(st, n, r, q) else Arrived(st, n, q, r)
  }

  ghost predicate Enabled(st: State, n: nat, a: Action)
    requires Shaped(st, n)
  {
    match a
    case Post(r, sending, freeing) => CanPost(st, n, r, sending, freeing)
    case Deliver(p, q) => p < n && q < n && Matched(st, n, p, q) && !Arrived(st, n, p, q)
  }

  ghost predicate CanPost(st: State, n: nat, r: nat, sending: bool, freeing: Option<nat>)
    requires Shaped(st, n)
  {
    r < n &&
    var side := SideOf(st, r, sending);
    side.posted < n &&
    match freeing
    case None => side.posted - |side.freed| < MAX_CONCURRENT
    case Some(q) => q < n && q in PostedTo(st, n, r, sending) - side.freed && IsComplete(st, n, r, sending, q)
  }

  ghost function Step(st: State, n: nat, a: Action): (st': State)
    requires Shaped(st, n) && Enabled(st, n, a)
    ensures Shaped(st', n)
  {
    match a
    case Post(r, sending, freeing) =>
      var side := SideOf(st, r, sending);
      var next := Side(side.posted + 1, side.freed + match freeing case None => {} case Some(q) => {q});
      if sending then st.(send := st.send[r := next]) else st.(recv := st.recv[r := next])
    case Deliver(p, q) => st.(got := st.got[q := st.got[q] + [p]])
  }

  function Start(n: nat): State {
    State(seq(n, r => Side(0, {})), seq(n, r => Side(0, {})), seq(n, r => []))
  }

  ghost function Run(n: nat, actions: seq<Action>): (st: State)
    ensures Shaped(st, n)
  {
    if actions == [] then Start(n)
    else
      var before := Run(n, actions[..|actions| - 1]);
      var a := actions[|actions| - 1];
      if Enabled(before, n, a) then Step(before, n, a) else before
  }

  // ---------------------------------------------------------------- the windows

  /** Only complete requests were freed, and no more than 50 are outstanding. */
  ghost predicate SideInv(st: State, n: nat, r: nat, sending: bool)
    requires Shaped(st, n) && r < n
  {
    var side := SideOf(st, r, sending);
    && side.freed <= PostedTo(st, n, r, sending)
    && side.posted - |side.freed| <= MAX_CONCURRENT
    && (forall q :: q in side.freed && q < n ==> IsComplete(st, n, r, sending, q))
  }

  ghost predicate Inv(st: State, n: nat) {
    && Shaped(st, n)
    && forall r, sending {:trigger SideInv(st, n, r, sending)} :: 0 <= r < n ==> SideInv(st, n, r, sending)
  }

  lemma {:induction false} PostedGrows(st: State, n: nat, a: Action, r: nat, sending: bool)
    requires Shaped(st, n) && Enabled(st, n, a) && r < n
    ensures PostedTo(st, n, r, sending) <= PostedTo(Step(st, n, a), n, r, sending)
  {
    hide OrderOf, CanPost, Matched;
    var order, k := OrderOf(n, r, sending), SideOf(st, r, sending).posted;
    assert k < n ==> order[..k + 1] == order[..k] + [order[k]];
  }

  lemma {:induction false} StaysComplete(st: State, n: nat, a: Action, r: nat, sending: bool, q: nat)
    requires Shaped(st, n) && Enabled(st, n, a) && r < n && q < n && IsComplete(st, n, r, sending, q)
    ensures IsComplete(Step(st, n, a), n, r, sending, q)
  {
    hide CanPost, Matched;
  }

  lemma {:induction false} FreedComplete(st: State, n: nat, a: Action, r: nat, sending: bool)
    requires Shaped(st, n) && r < n && SideInv(st, n, r, sending) && Enabled(st, n, a)
    ensures forall q :: q in SideOf(st, r, sending).freed && q < n ==> IsComplete(Step(st, n, a), n, r, sending, q)
  {
    hide IsComplete, PostedTo, Step, Enabled;
    forall q | q in SideOf(st, r, sending).freed && q < n
      ensures IsComplete(Step(st, n, a), n, r, sending, q)
    {
      StaysComplete(st, n, a, r, sending, q);
    }
  }

  lemma {:induction false} OtherSide(st: State, n: nat, a: Action, r: nat, sending: bool)
    requires Shaped(st, n) && r < n && SideInv(st, n, r, sending) && Enabled(st, n, a)
    requires a.Post? ==> a.rank != r || a.sending != sending
    ensures SideInv(Step(st, n, a), n, r, sending)
  {
    hide IsComplete, PostedTo, Enabled;
    PostedGrows(st, n, a, r, sending);
    FreedComplete(st, n, a, r, sending);
    assert SideOf(Step(st, n, a), r, sending) == SideOf(st, r, sending);
  }

  lemma {:induction false} OwnSide(st: State, n: nat, a: Action)
    requires Shaped(st, n) && a.Post? && a.rank < n && SideInv(st, n, a.rank, a.sending) && Enabled(st, n, a)
    ensures SideInv(Step(st, n, a), n, a.rank, a.sending)
  {
    hide IsComplete, PostedTo;
    var r, sending, side := a.rank, a.sending, SideOf(st, a.rank, a.sending);
    PostedGrows(st, n, a, r, sending);
    FreedComplete(st, n, a, r, sending);
    if a.freeing.Some? {
      StaysComplete(st, n, a, r, sending, a.freeing.value);
    }
    var next := SideOf(Step(st, n, a), r, sending);
    assert next.posted == side.posted + 1;
    assert a.freeing.None? ==> next.freed == side.freed;
  }

  lemma {:induction false} StepKeepsSide(st: State, n: nat, a: Action, r: nat, sending: bool)
    requires Inv(st, n) && Enabled(st, n, a) && r < n
    ensures SideInv(Step(st, n, a), n, r, sending)
  {
    hide SideInv, Enabled, Step;
    assert SideInv(st, n, r, sending);
    if a.Post? && a.rank == r && a.sending == sending {
      OwnSide(st, n, a);
    } else {
      OtherSide(st, n, a, r, sending);
    }
  }

  lemma {:induction false} RunKeepsInv(n: nat, actions: seq<Action>)
    ensures Inv(Run(n, actions), n)
    decreases |actions|
  {
    hide SideInv, Enabled, Step;
    if actions == [] {
      forall r, sending | 0 <= r < n
        ensures SideInv(Start(n), n, r, sending)
      {
        StartSide(n, r, sending);
      }
    } else {
      var before, a := actions[..|actions| - 1], actions[|actions| - 1];
      RunKeepsInv(n, before);
      var st := Run(n, before);
      if Enabled(st, n, a) {
        forall r, sending | 0 <= r < n
          ensures SideInv(Step(st, n, a), n, r, sending)
        {
          StepKeepsSide(st, n, a, r, sending);
        }
      }
    }
  }

  lemma {:induction false} StartSide(n: nat, r: nat, sending: bool)
    requires r < n
    ensures SideInv(Start(n), n, r, sending)
  {
  }

  // ---------------------------------------------------------------- both orders go by the distance between groups

  function Group(r: nat): nat { r / MAX_CONCURRENT }

  function Groups(n: nat): nat
    requires n > 0
  {
    Group(n - 1) + 1
  }

  /** How many groups on, cyclically, the receiver is from the sender. */
  function Distance(n: nat, p: nat, q: nat): nat
    requires p < n && q < n
  {
    if Group(q) >= Group(p) then Group(q) - Group(p)
    else GroupMonotone(p, n - 1); Group(q) + Groups(n) - Group(p)
  }

  lemma {:induction false} GroupMonotone(a: nat, b: nat)
    requires a <= b
    ensures Group(a) <= Group(b)
  {
  }

  function PairDistance(n: nat, r: nat, q: nat, sending: bool): nat
    requires r < n && q < n
  {
    if sending then Distance(n, r, q) else Distance(n, q, r)
  }

  lemma {:induction false} DistanceBounded(n: nat, p: nat, q: nat)
    requires p < n && q < n
    ensures Distance(n, p, q) < Groups(n)
  {
    GroupMonotone(p, n - 1);
    GroupMonotone(q, n - 1);
  }

  lemma {:induction false} SendsByDistance(n: nat, r: nat, i: nat, j: nat)
    requires r < n && i <= j < n
    ensures var order := SendSeq(n, GroupStart(r));
      order[i] < n && order[j] < n && Distance(n, r, order[i]) <= Distance(n, r, order[j])
  {
    var s, order := GroupStart(r), SendSeq(n, GroupStart(r));
    assert Group(s) == Group(r);
    var a, b := order[i], order[j];
    GroupMonotone(a, n - 1);
    GroupMonotone(b, n - 1);
    if a >= s && b >= s {
      GroupMonotone(s, a);
      GroupMonotone(a, b);
    } else if a >= s {
      GroupMonotone(s, a);
      BelowGroup(b, r);
    } else {
      BelowGroup(a, r);
      BelowGroup(b, r);
      GroupMonotone(a, b);
    }
  }

  lemma {:induction false} BelowGroup(a: nat, r: nat)
    requires a < GroupStart(r)
    ensures Group(a) < Group(r)
  {
  }

  lemma {:induction false} WithinGroup(a: nat, r: nat)
    requires GroupStart(r) <= a < GroupStart(r) + MAX_CONCURRENT
    ensures Group(a) == Group(r)
  {
  }

  lemma {:induction false} BeyondGroup(a: nat, r: nat)
    requires GroupStart(r) + MAX_CONCURRENT <= a
    ensures Group(a) > Group(r)
  {
  }

  /** Where a receive is in its order. */
  lemma {:induction false} RecvPlace(n: nat, r: nat, i: nat)
    requires r < n && i < n
    ensures var s, a := GroupStart(r), RecvSeq(n, GroupStart(r))[i];
      var e := GroupEnd(s, n);
      && a < n && (i < e - s ==> a == s + i) && (e - s <= i < e ==> a == e - 1 - i) && (i >= e ==> a == n - 1 - (i - e))
      && (i < e - s ==> Distance(n, a, r) == 0)
      && (e - s <= i < e ==> a < s && Distance(n, a, r) == Group(r) - Group(a))
      && (i >= e ==> a >= e && Distance(n, a, r) == Group(r) + Groups(n) - Group(a))
  {
    var s, a := GroupStart(r), RecvSeq(n, GroupStart(r))[i];
    var e := GroupEnd(s, n);
    if i < e - s {
      WithinGroup(a, r);
    } else if i < e {
      BelowGroup(a, r);
    } else {
      BeyondGroup(a, r);
    }
  }

  lemma {:induction false} RecvsByDistance(n: nat, r: nat, i: nat, j: nat)
    requires r < n && i <= j < n
    ensures var order := RecvSeq(n, GroupStart(r));
      order[i] < n && order[j] < n && Distance(n, order[i], r) <= Distance(n, order[j], r)
  {
    hide Distance, RecvSeq;
    RecvPlace(n, r, i);
    RecvPlace(n, r, j);
    var a, b := RecvSeq(n, GroupStart(r))[i], RecvSeq(n, GroupStart(r))[j];
    var s := GroupStart(r);
    var e := GroupEnd(s, n);
    GroupMonotone(a, n - 1);
    GroupMonotone(b, n - 1);
    if (e - s <= i && j < e) || i >= e {
      GroupMonotone(b, a);
    }
  }

  lemma {:induction false} OrderedByDistance(n: nat, r: nat, sending: bool, i: nat, j: nat)
    requires r < n && i <= j < n
    ensures var order := OrderOf(n, r, sending);
      order[i] < n && order[j] < n && PairDistance(n, r, order[i], sending) <= PairDistance(n, r, order[j], sending)
  {
    hide SendSeq, RecvSeq, Distance;
    if sending {
      SendsByDistance(n, r, i, j);
    } else {
      RecvsByDistance(n, r, i, j);
    }
  }

  /** Ranks at the same distance from r are in one group. */
  lemma {:induction false} SameDistance(n: nat, r: nat, sending: bool, a: nat, b: nat)
    requires r < n && a < n && b < n && PairDistance(n, r, a, sending) == PairDistance(n, r, b, sending)
    ensures GroupStart(a) == GroupStart(b)
  {
    GroupMonotone(r, n - 1);
    GroupMonotone(a, n - 1);
    GroupMonotone(b, n - 1);
    assert Group(a) == Group(b);
  }

  // ---------------------------------------------------------------- somebody can always post

  lemma {:induction false} MemberCount(s: seq<nat>)
    requires NoDuplicates(s)
    ensures |Members(s)| == |s|
    decreases |s|
  {
    hide Members;
    if s == [] {
      assert Members(s) == {};
    } else {
      var front, last := s[..|s| - 1], s[|s| - 1];
      MemberCount(front);
      assert s == front + [last] && last !in front;
      assert Members(s) == Members(front) + {last};
    }
  }

  /** A group without one of its ranks is smaller than a window. */
  lemma {:induction false} GroupRest(q: nat) returns (rest: set<nat>)
    ensures |rest| < MAX_CONCURRENT
    ensures forall r: nat :: GroupStart(r) == GroupStart(q) && r != q ==> r in rest
  {
    hide Members;
    var s := GroupStart(q);
    var span := Span(s, s + MAX_CONCURRENT);
    MemberCount(span);
    forall r: nat | GroupStart(r) == s
      ensures r in Members(span)
    {
      assert span[r - s] == r;
    }
    assert GroupStart(q) == s;
    rest := Members(span) - {q};
  }

  lemma {:induction false} OrderDistinct(n: nat, r: nat, sending: bool)
    requires r < n
    ensures IsPermutation(OrderOf(n, r, sending), n)
  {
    OrdersArePermutations(n, GroupStart(r));
  }

  lemma {:induction false} PostedCount(st: State, n: nat, r: nat, sending: bool)
    requires Shaped(st, n) && r < n
    ensures |PostedTo(st, n, r, sending)| == SideOf(st, r, sending).posted
    ensures forall q :: q in PostedTo(st, n, r, sending) ==> q < n
  {
    hide OrderOf;
    OrderDistinct(n, r, sending);
    MemberCount(OrderOf(n, r, sending)[..SideOf(st, r, sending).posted]);
  }

  /** All messages over a smaller distance are complete. */
  ghost predicate CompleteBelow(st: State, n: nat, k: nat)
    requires Shaped(st, n)
  {
    forall p, q {:trigger Arrived(st, n, p, q)} :: 0 <= p < n && 0 <= q < n && Distance(n, p, q) < k ==>
      Arrived(st, n, p, q)
  }

  /** What rank r has posted before q, but not over the same distance, is complete. */
  lemma {:induction false} EarlierComplete(st: State, n: nat, r: nat, sending: bool, q: nat, x: nat)
    requires Shaped(st, n) && r < n && q < n && q !in PostedTo(st, n, r, sending) && x in PostedTo(st, n, r, sending)
    requires CompleteBelow(st, n, PairDistance(n, r, q, sending))
    ensures x < n && (IsComplete(st, n, r, sending, x) || GroupStart(x) == GroupStart(q))
  {
    hide OrderOf, Arrived, Distance, GroupStart;
    var order, k := OrderOf(n, r, sending), SideOf(st, r, sending).posted;
    OrderDistinct(n, r, sending);
    assert q in order;
    var j :| 0 <= j < n && order[j] == q;
    var i :| 0 <= i < k && order[..k][i] == x;
    OrderedByDistance(n, r, sending, i, j);
    if PairDistance(n, r, x, sending) == PairDistance(n, r, q, sending) {
      SameDistance(n, r, sending, x, q);
    }
  }

  /** A rank whose next requests are over the smallest distance that is not complete can post. */
  lemma {:induction false} SomePost(st: State, n: nat, r: nat, sending: bool, q: nat) returns (a: Action)
    requires Inv(st, n) && r < n && q < n && q !in PostedTo(st, n, r, sending)
    requires CompleteBelow(st, n, PairDistance(n, r, q, sending))
    ensures Enabled(st, n, a)
  {
    hide OrderOf, IsComplete, Distance, GroupStart, PostedTo;
    assert SideInv(st, n, r, sending);
    var side, posted := SideOf(st, r, sending), PostedTo(st, n, r, sending);
    PostedCount(st, n, r, sending);
    NotAllPosted(st, n, r, sending, q);
    var open := posted - side.freed;
    var rest := GroupRest(q);
    assert |open| == |posted| - |side.freed|;
    if side.posted - |side.freed| < MAX_CONCURRENT {
      a := Post(r, sending, None);
    } else if x :| x in open && IsComplete(st, n, r, sending, x) {
      a := Post(r, sending, Some(x));
    } else {
      forall x | x in open
        ensures x in rest
      {
        EarlierComplete(st, n, r, sending, q, x);
      }
      TooMany(open, rest);
      assert false;
    }
  }

  lemma {:induction false} NotAllPosted(st: State, n: nat, r: nat, sending: bool, q: nat)
    requires Shaped(st, n) && r < n && q < n && q !in PostedTo(st, n, r, sending)
    ensures SideOf(st, r, sending).posted < n
  {
    hide OrderOf;
    OrderDistinct(n, r, sending);
    var order := OrderOf(n, r, sending);
    assert q in order && order[..n] == order;
  }

  lemma {:induction false} TooMany(a: set<nat>, b: set<nat>)
    requires a <= b
    ensures |a| <= |b|
  {
    assert a + (b - a) == b;
  }

  ghost predicate AllComplete(st: State, n: nat)
    requires Shaped(st, n)
  {
    forall p, q {:trigger Arrived(st, n, p, q)} :: 0 <= p < n && 0 <= q < n ==> Arrived(st, n, p, q)
  }

  /** An incomplete message over the smallest distance. */
  lemma {:induction false} Nearest(st: State, n: nat, k: nat) returns (p: nat, q: nat)
    requires Shaped(st, n) && n > 0 && k <= Groups(n) && CompleteBelow(st, n, k) && !AllComplete(st, n)
    ensures p < n && q < n && !Arrived(st, n, p, q) && CompleteBelow(st, n, Distance(n, p, q))
    decreases Groups(n) - k
  {
    hide Arrived, Distance;
    NothingFurther(st, n);
    if x, y :| 0 <= x < n && 0 <= y < n && Distance(n, x, y) == k && !Arrived(st, n, x, y) {
      p, q := x, y;
    } else {
      p, q := Nearest(st, n, k + 1);
    }
  }

  lemma {:induction false} NothingFurther(st: State, n: nat)
    requires Shaped(st, n) && n > 0
    ensures CompleteBelow(st, n, Groups(n)) ==> AllComplete(st, n)
  {
    hide Arrived, Distance;
    forall x, y | 0 <= x < n && 0 <= y < n
      ensures Distance(n, x, y) < Groups(n)
    {
      DistanceBounded(n, x, y);
    }
  }

  /**
   In every run, until all bytes have arrived some rank can post its next request or some bytes can
   arrive; so with a window of 50 in each direction and synchronous sends the ranks never wait for
   each other in a circle.
   */
  lemma {:induction false} NeverStuck(n: nat, actions: seq<Action>)
    ensures var st := Run(n, actions); AllComplete(st, n) || exists a :: Enabled(st, n, a)
  {
    hide Run, CanPost, Distance, PostedTo;
    RunKeepsInv(n, actions);
    var st := Run(n, actions);
    if !AllComplete(st, n) {
      var p, q := Nearest(st, n, 0);
      if q !in PostedTo(st, n, p, true) {
        var a := SomePost(st, n, p, true, q);
      } else if p !in PostedTo(st, n, q, false) {
        var a := SomePost(st, n, q, false, p);
      } else {
        assert Enabled(st, n, Deliver(p, q));
      }
    }
  }

  // ---------------------------------------------------------------- the bytes

  /** `send[p][q]` is where rank p has the bytes for q, `displs[q][p]` where q wants those of p. */
  datatype Job<T> = Job(sendbuf: seq<seq<T>>, send: seq<seq<Segment>>, displs: seq<seq<nat>>)

  ghost predicate ValidJob<T>(job: Job<T>, before: seq<seq<T>>) {
    var n := |job.sendbuf|;
    && |job.send| == |job.displs| == |before| == n
    && (forall p :: 0 <= p < n ==> |job.send[p]| == |job.displs[p]| == n)
    && (forall q :: 0 <= q < n ==> Separate(job.displs[q], Sizes(BytesFor(job, q)), |before[q]|))
  }

  /** What the ranks have for rank q. */
  ghost function BytesFor<T>(job: Job<T>, q: nat): (data: seq<seq<T>>)
    requires |job.send| == |job.sendbuf| && forall p :: 0 <= p < |job.send| ==> q < |job.send[p]|
    ensures |data| == |job.sendbuf| && forall p :: 0 <= p < |data| ==> data[p] == Read(job.sendbuf[p], job.send[p][q])
  {
    seq(|job.sendbuf|, p requires 0 <= p < |job.sendbuf| => Read(job.sendbuf[p], job.send[p][q]))
  }

  /** For every rank p, the bytes that p has for rank q are in this memory where q wants those of p. */
  ghost predicate HasBytesOfAll<T>(job: Job<T>, q: nat, mem: seq<T>)
    requires |job.send| == |job.displs| == |job.sendbuf| && q < |job.displs| && |job.displs[q]| == |job.sendbuf|
    requires forall p :: 0 <= p < |job.send| ==> q < |job.send[p]|
  {
    forall p :: 0 <= p < |job.sendbuf| && HasSome(job.sendbuf[p], job.send[p][q]) ==>
      SameBytes(mem, job.displs[q][p], job.sendbuf[p], job.send[p][q].off, job.send[p][q].len)
  }

  predicate HasSome<T>(buf: seq<T>, seg: Segment) { seg.len > 0 && seg.off + seg.len <= |buf| }

  /** The receive buffers after some actions. */
  ghost function Memory<T>(job: Job<T>, before: seq<seq<T>>, actions: seq<Action>): (mem: seq<seq<T>>)
    requires ValidJob(job, before)
    ensures |mem| == |before|
  {
    if actions == [] then before
    else
      var mem, st := Memory(job, before, actions[..|actions| - 1]), Run(|before|, actions[..|actions| - 1]);
      match actions[|actions| - 1]
      case Deliver(p, q) =>
        if Enabled(st, |before|, Deliver(p, q))
        then mem[q := Write(mem[q], job.displs[q][p], Read(job.sendbuf[p], job.send[p][q]))]
        else mem
      case _ => mem
  }

  ghost predicate GotRight(got: seq<nat>, n: nat) { NoDuplicates(got) && InRange(got, n) }

  /** Rank q's buffer is what the arrivals so far make of it. */
  ghost predicate MemoryIs<T>(job: Job<T>, before: seq<seq<T>>, mem: seq<seq<T>>, st: State, q: nat)
    requires ValidJob(job, before) && q < |before| == |mem| && Shaped(st, |before|)
  {
    && GotRight(st.got[q], |before|)
    && |job.displs[q]| == |before|
    && mem[q] == Placed(before[q], job.displs[q], BytesFor(job, q), st.got[q])
  }

  lemma {:induction false} OneMoreArrived<T>(buf: seq<T>, offs: seq<nat>, pieces: seq<seq<T>>, got: seq<nat>, p: nat)
    requires |offs| == |pieces| && GotRight(got, |pieces|) && p < |pieces| && p !in got
    ensures GotRight(got + [p], |pieces|)
    ensures Placed(buf, offs, pieces, got + [p]) == Write(Placed(buf, offs, pieces, got), offs[p], pieces[p])
  {
    hide Write;
    assert (got + [p])[..|got|] == got;
  }

  lemma {:induction false} MemoryStays<T>(job: Job<T>, before: seq<seq<T>>, actions: seq<Action>, q: nat)
    requires ValidJob(job, before) && q < |before|
    ensures MemoryIs(job, before, Memory(job, before, actions), Run(|before|, actions), q)
    decreases |actions|
  {
    hide Placed, Write, Separate, CanPost, Matched;
    if actions != [] {
      var front, a := actions[..|actions| - 1], actions[|actions| - 1];
      MemoryStays(job, before, front, q);
      var st := Run(|before|, front);
      if a.Deliver? && a.to == q && Enabled(st, |before|, a) {
        OneMoreArrived(before[q], job.displs[q], BytesFor(job, q), st.got[q], a.from);
      }
    } else {
      NothingArrived(job, before, q);
    }
  }

  lemma {:induction false} NothingArrived<T>(job: Job<T>, before: seq<seq<T>>, q: nat)
    requires ValidJob(job, before) && q < |before|
    ensures MemoryIs(job, before, before, Start(|before|), q)
  {
    hide Separate;
  }

  /**
   In every run, when all is complete every rank has every rank's bytes for it at the displacement
   it asked for, and its buffer is otherwise as it was.
   */
  lemma {:induction false} AlltoallvDelivers<T>(job: Job<T>, before: seq<seq<T>>, actions: seq<Action>, q: nat)
    requires ValidJob(job, before) && q < |before| && AllComplete(Run(|before|, actions), |before|)
    ensures |Memory(job, before, actions)[q]| == |before[q]| && |job.displs[q]| == |before|
    ensures Gathered(Memory(job, before, actions)[q], before[q], BytesFor(job, q), job.displs[q])
    ensures HasBytesOfAll(job, q, Memory(job, before, actions)[q])
  {
    hide HasBytesOfAll, Placed, Separate, Touched, InRegion, Read;
    MemoryStays(job, before, actions, q);
    var n, got, mem := |before|, Run(|before|, actions).got[q], Memory(job, before, actions)[q];
    var offs, pieces := job.displs[q], BytesFor(job, q);
    forall p: nat | p < n
      ensures Read(mem, Segment(offs[p], |pieces[p]|)) == pieces[p]
    {
      assert Arrived(Run(n, actions), n, p, q);
      PlacedThere(before[q], offs, pieces, got, p);
    }
    forall i | 0 <= i < |mem| && !InRegion(offs, Sizes(pieces), i)
      ensures mem[i] == before[q][i]
    {
      NotTouched(offs, Sizes(pieces), got, i);
      PlacedElsewhere(before[q], offs, pieces, got, i);
    }
    BytesOfAll(job, before, q, mem);
  }

  lemma {:induction false} BytesOfAll<T>(job: Job<T>, before: seq<seq<T>>, q: nat, mem: seq<T>)
    requires ValidJob(job, before) && q < |before| && |mem| == |before[q]| && |job.displs[q]| == |before|
    requires Gathered(mem, before[q], BytesFor(job, q), job.displs[q])
    ensures HasBytesOfAll(job, q, mem)
  {
    hide InRegion, Read;
    forall p | 0 <= p < |job.sendbuf| && HasSome(job.sendbuf[p], job.send[p][q])
      ensures SameBytes(mem, job.displs[q][p], job.sendbuf[p], job.send[p][q].off, job.send[p][q].len)
    {
      var data := BytesFor(job, q);
      assert Inside(job.displs[q][p], Sizes(data)[p], |mem|);
      ReadLength(job.sendbuf[p], job.send[p][q]);
      ReadIs(job.sendbuf[p], job.send[p][q], mem, job.displs[q][p]);
    }
  }

  lemma {:induction false} ReadLength<T>(b: seq<T>, seg: Segment)
    requires seg.off + seg.len <= |b|
    ensures |Read(b, seg)| == seg.len
  {
  }

  lemma {:induction false} ReadIs<T>(b: seq<T>, seg: Segment, a: seq<T>, at: nat)
    requires seg.off + seg.len <= |b| && at + |Read(b, seg)| <= |a|
    requires Read(a, Segment(at, |Read(b, seg)|)) == Read(b, seg)
    ensures SameBytes(a, at, b, seg.off, seg.len)
  {
  }

  lemma {:induction false} NotTouched(offs: seq<nat>, lens: seq<nat>, ranks: seq<nat>, i: nat)
    requires |offs| == |lens| && InRange(ranks, |lens|) && !InRegion(offs, lens, i)
    ensures !Touched(offs, lens, ranks, i)
  {
  }
}
