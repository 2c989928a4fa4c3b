/** `ulm_alltoallv`: a window of at most 50 sends and 50 receives that moves round the ranks. */
module AllToAllV {
  import opened Layout
  import opened Network

  const MAX_CONCURRENT := 50

  // ---------------------------------------------------------------- the two orders

  /** The end of the group of at most 50 ranks that begins at s. */
  function GroupEnd(s: nat, n: nat): nat { if s + MAX_CONCURRENT <= n then s + MAX_CONCURRENT else n }

  /** a - 1 down to b. */
  function Down(a: nat, b: nat): (s: seq<nat>)
    requires b <= a
    ensures |s| == a - b && forall i :: 0 <= i < |s| ==> s[i] == a - 1 - i
  {
    seq(a - b, i requires 0 <= i < a - b => a - 1 - i)
  }

  /** Sends go upwards from the start of the own group, and wrap. */
  function SendSeq(n: nat, s: nat): (order: seq<nat>)
    requires s < n
    ensures |order| == n
  {
    Span(s, n) + Span(0, s)
  }

  /** Receives take the own group upwards, then go downwards from below it, and wrap. */
  function RecvSeq(n: nat, s: nat): (order: seq<nat>)
    requires s < n
    ensures |order| == n
  {
    Span(s, GroupEnd(s, n)) + Down(s, 0) + Down(n, GroupEnd(s, n))
  }

  /** Either order names every rank exactly once. */
  lemma {:induction false} OrdersArePermutations(n: nat, s: nat)
    requires s < n
    ensures IsPermutation(SendSeq(n, s), n) && IsPermutation(RecvSeq(n, s), n)
  {
    var e := GroupEnd(s, n);
    forall r: nat | r < n
      ensures r in SendSeq(n, s) && r in RecvSeq(n, s)
    {
      assert SendSeq(n, s)[if r >= s then r - s else n - s + r] == r;
      assert RecvSeq(n, s)[if s <= r < e then r - s else if r < s then (e - s) + (s - 1 - r) else e + (n - 1 - r)] == r;
    }
  }

  /** Both orders, with the wrap-around. */
  lemma {:induction false} OrdersAre(n: nat, s: nat, k: nat)
    requires s < n && k < n
    ensures SendSeq(n, s)[k] == (s + k) % n
    ensures var g := if s + 50 <= n then 50 else n - s;
      RecvSeq(n, s)[k] == if k < g then s + k else (s + n - 1 - (k - g)) % n
  {
    Wrapped(s + k, n);
    var e := GroupEnd(s, n);
    if e - s <= k {
      Wrapped(s + n - 1 - (k - (e - s)), n);
    }
  }

  lemma {:induction false} Wrapped(x: nat, n: nat)
    requires x < 2 * n
    ensures x % n == if x < n then x else x - n
  {
  }

  lemma {:induction false} SendNext(n: nat, s: nat, k: nat)
    requires s < n && k < n
    ensures var p, order := SendSeq(n, s)[k], SendSeq(n, s);
      && p < n && order[0] == s && (k > 0 ==> p != s)
      && (if p + 1 >= n then p + 1 - n else p + 1) == if k + 1 < n then order[k + 1] else s
  {
  }

  lemma {:induction false} RecvNext(n: nat, s: nat, k: nat)
    requires s < n && GroupEnd(s, n) - s <= k < n
    ensures var p, order, e := RecvSeq(n, s)[k], RecvSeq(n, s), GroupEnd(s, n);
      && p < n && p != e - 1
      && (if p == 0 then n - 1 else p - 1) == if k + 1 < n then order[k + 1] else e - 1
  {
  }

  // ---------------------------------------------------------------- the turns of a rank

  /** One direction: the partners for which requests were posted, and that of the request in each slot. */
  datatype Window = Window(posted: seq<nat>, slots: seq<Option<nat>>)

  /** Both directions, and where the loop over the slots is: at receive slot `at / 2` or at send slot `at / 2`. */
  datatype Traffic = Traffic(recv: Window, send: Window, at: nat)

  function Order(n: nat, s: nat, sending: bool): (order: seq<nat>)
    requires s < n
    ensures |order| == n
  {
    if sending then SendSeq(n, s) else RecvSeq(n, s)
  }

  function Side(t: Traffic, sending: bool): Window { if sending then t.send else t.recv }

  /** The direction and the slot that come next: first the batch of receives, then that of sends, then the loop. */
  function Aim(t: Traffic, n: nat, s: nat): (aim: (bool, nat))
    requires s < n
  {
    var g := GroupEnd(s, n) - s;
    if |t.recv.posted| < g then (false, |t.recv.posted|)
    else if |t.send.posted| < g then (true, |t.send.posted|)
    else (t.at % 2 == 1, t.at / 2)
  }

  /** The partner whose request is tested next: the slot is in use, and the direction has more to post. */
  function Tested(t: Traffic, n: nat, s: nat): Option<nat>
    requires s < n
  {
    var (sending, i) := Aim(t, n, s);
    var w := Side(t, sending);
    if |w.posted| < n && i < |w.slots| then w.slots[i] else None
  }

  /** The next request of the order goes into slot i. */
  function PostInto(w: Window, order: seq<nat>, i: nat): Window
    requires |w.posted| < |order| && i < |w.slots|
  {
    Window(w.posted + [order[|w.posted|]], w.slots[i := Some(order[|w.posted|])])
  }

  /** A direction that has more to post fills the slot, if that is free or its request is complete. */
  function Refilled(w: Window, order: seq<nat>, i: nat, complete: bool): Window {
    if |w.posted| < |order| && i < |w.slots| && (w.slots[i].None? || complete) then PostInto(w, order, i) else w
  }

  function Turn(t: Traffic, n: nat, s: nat, complete: bool): Traffic
    requires s < n
  {
    var (sending, i) := Aim(t, n, s);
    var w := Refilled(Side(t, sending), Order(n, s, sending), i, complete);
    var g := GroupEnd(s, n) - s;
    var at := if |t.recv.posted| < g || |t.send.posted| < g then t.at else (t.at + 1) % (2 * MAX_CONCURRENT);
    if sending then Traffic(t.recv, w, at) else Traffic(w, t.send, at)
  }

  function Nothing(): Traffic {
    var free := Window([], seq(MAX_CONCURRENT, i => None));
    Traffic(free, free, 0)
  }

  /** A rank's turns, when the tests answer as said; an answer to a test that is not made does not matter. */
  function Turns(n: nat, s: nat, answers: seq<bool>): Traffic
    requires s < n
  {
    if answers == [] then Nothing()
    else Turn(Turns(n, s, answers[..|answers| - 1]), n, s, answers[|answers| - 1])
  }

  /** The answers to the tests that are made. */
  function Heard(n: nat, s: nat, answers: seq<bool>): seq<bool>
    requires s < n
  {
    if answers == [] then []
    else
      var front, last := answers[..|answers| - 1], answers[|answers| - 1];
      Heard(n, s, front) + if Tested(Turns(n, s, front), n, s).Some? then [last] else []
  }

  // ---------------------------------------------------------------- what a turn does

  /** In the first batches the slots are filled from the first on. */
  ghost predicate FilledInOrder(w: Window) {
    forall j :: 0 <= j < |w.slots| ==> w.slots[j] == if j < |w.posted| then Some(w.posted[j]) else None
  }

  /** The traffic of a rank after k turns. */
  ghost predicate Sound(t: Traffic, n: nat, s: nat, k: nat)
    requires s < n
  {
    var g := GroupEnd(s, n) - s;
    && |t.recv.slots| == |t.send.slots| == MAX_CONCURRENT && t.at < 2 * MAX_CONCURRENT
    && t.recv.posted <= RecvSeq(n, s) && t.send.posted <= SendSeq(n, s)
    && if k <= 2 * g
       then && |t.recv.posted| == (if k < g then k else g) && |t.send.posted| == (if k < g then 0 else k - g)
            && t.at == 0 && FilledInOrder(t.recv) && FilledInOrder(t.send)
       else |t.recv.posted| >= g && |t.send.posted| >= g && t.at == (k - 2 * g) % (2 * MAX_CONCURRENT)
  }

  lemma {:induction false} Prefix(posted: seq<nat>, order: seq<nat>)
    requires posted <= order && |posted| < |order|
    ensures posted + [order[|posted|]] <= order
  {
  }

  lemma {:induction false} Filled(w: Window, order: seq<nat>)
    requires FilledInOrder(w) && |w.posted| < |order| && |w.posted| < |w.slots|
    ensures w.slots[|w.posted|].None? && FilledInOrder(PostInto(w, order, |w.posted|))
  {
  }

  lemma {:induction false} BatchTurn(t: Traffic, n: nat, s: nat, k: nat, complete: bool)
    requires s < n && k < 2 * (GroupEnd(s, n) - s) && Sound(t, n, s, k)
    ensures Sound(Turn(t, n, s, complete), n, s, k + 1) && Tested(t, n, s).None?
    ensures var g := GroupEnd(s, n) - s;
      && Aim(t, n, s) == (k >= g, if k < g then k else k - g)
      && Turn(t, n, s, complete) ==
         if k < g then t.(recv := PostInto(t.recv, RecvSeq(n, s), k))
         else t.(send := PostInto(t.send, SendSeq(n, s), k - g))
  {
    hide FilledInOrder, RecvSeq, SendSeq;
    if k < GroupEnd(s, n) - s {
      Prefix(t.recv.posted, RecvSeq(n, s));
      Filled(t.recv, RecvSeq(n, s));
    } else {
      Prefix(t.send.posted, SendSeq(n, s));
      Filled(t.send, SendSeq(n, s));
    }
  }

  lemma {:induction false} NextAt(k: nat)
    ensures (k + 1) % (2 * MAX_CONCURRENT) == (k % (2 * MAX_CONCURRENT) + 1) % (2 * MAX_CONCURRENT)
  {
  }

  lemma {:induction false} LoopTurn(t: Traffic, n: nat, s: nat, k: nat, complete: bool)
    requires s < n && k >= 2 * (GroupEnd(s, n) - s) && Sound(t, n, s, k)
    ensures Sound(Turn(t, n, s, complete), n, s, k + 1)
    ensures var at := (k - 2 * (GroupEnd(s, n) - s)) % (2 * MAX_CONCURRENT);
      t.at == at && Aim(t, n, s) == (at % 2 == 1, at / 2)
  {
    hide FilledInOrder, RecvSeq, SendSeq;
    NextAt(k - 2 * (GroupEnd(s, n) - s));
    if |t.recv.posted| < n {
      Prefix(t.recv.posted, RecvSeq(n, s));
    }
    if |t.send.posted| < n {
      Prefix(t.send.posted, SendSeq(n, s));
    }
  }

  lemma {:induction false} TurnsSound(n: nat, s: nat, answers: seq<bool>)
    requires s < n
    ensures Sound(Turns(n, s, answers), n, s, |answers|)
    decreases |answers|
  {
    hide Sound, Turn;
    if answers == [] {
      NothingSound(n, s);
    } else {
      var front, k := answers[..|answers| - 1], |answers| - 1;
      TurnsSound(n, s, front);
      if k < 2 * (GroupEnd(s, n) - s) {
        BatchTurn(Turns(n, s, front), n, s, k, answers[k]);
      } else {
        LoopTurn(Turns(n, s, front), n, s, k, answers[k]);
      }
    }
  }

  lemma {:induction false} NothingSound(n: nat, s: nat)
    requires s < n
    ensures Sound(Nothing(), n, s, 0)
  {
  }

  lemma {:induction false} OneMoreTurn(n: nat, s: nat, answers: seq<bool>, answer: bool)
    requires s < n
    ensures Turns(n, s, answers + [answer]) == Turn(Turns(n, s, answers), n, s, answer)
    ensures Heard(n, s, answers + [answer]) ==
      Heard(n, s, answers) + if Tested(Turns(n, s, answers), n, s).Some? then [answer] else []
  {
    hide Turn, Tested;
    assert (answers + [answer])[..|answers|] == answers;
  }

  /** An answer matters only if the test is made. */
  lemma {:induction false} NotAsked(t: Traffic, n: nat, s: nat, a: bool, b: bool)
    requires s < n && Tested(t, n, s).None?
    ensures Turn(t, n, s, a) == Turn(t, n, s, b)
  {
    hide Aim, SendSeq, RecvSeq;
  }

  lemma {:induction false} HeardPrefix(n: nat, s: nat, answers: seq<bool>, m: nat)
    requires s < n && m <= |answers|
    ensures Heard(n, s, answers[..m]) <= Heard(n, s, answers)
    decreases |answers|
  {
    hide Tested, Turns;
    if m < |answers| {
      var front := answers[..|answers| - 1];
      HeardPrefix(n, s, front, m);
      assert front[..m] == answers[..m];
    } else {
      assert answers[..m] == answers;
    }
  }

  /** With the same answers heard, the turns are the same. */
  lemma {:induction false} SameTurns(n: nat, s: nat, a: seq<bool>, b: seq<bool>, m: nat)
    requires s < n && m <= |a| && m <= |b| && Heard(n, s, a) == Heard(n, s, b)
    ensures Turns(n, s, a[..m]) == Turns(n, s, b[..m]) && Heard(n, s, a[..m]) == Heard(n, s, b[..m])
  {
    hide Tested, Turn, Turns, Heard;
    if m == 0 {
      assert a[..0] == b[..0];
    } else {
      SameTurns(n, s, a, b, m - 1);
      TurnAt(n, s, a, m - 1);
      TurnAt(n, s, b, m - 1);
      HeardPrefix(n, s, a, m);
      HeardPrefix(n, s, b, m);
      var t := Turns(n, s, a[..m - 1]);
      if Tested(t, n, s).None? {
        NotAsked(t, n, s, a[m - 1], b[m - 1]);
      } else {
        var heard := Heard(n, s, a[..m - 1]);
        assert Heard(n, s, a)[|heard|] == a[m - 1] && Heard(n, s, b)[|heard|] == b[m - 1];
      }
    }
  }

  lemma {:induction false} TurnAt(n: nat, s: nat, answers: seq<bool>, m: nat)
    requires s < n && m < |answers|
    ensures var t := Turns(n, s, answers[..m]);
      && Turns(n, s, answers[..m + 1]) == Turn(t, n, s, answers[m])
      && Heard(n, s, answers[..m + 1]) ==
         Heard(n, s, answers[..m]) + if Tested(t, n, s).Some? then [answers[m]] else []
  {
    hide Tested, Turn, Turns, Heard;
    assert answers[..m + 1] == answers[..m] + [answers[m]];
    OneMoreTurn(n, s, answers[..m], answers[m]);
  }

  lemma {:induction false} HeardMore(n: nat, s: nat, a: seq<bool>, b: seq<bool>)
    requires s < n && |a| < |b| && Heard(n, s, a) == Heard(n, s, b)
    ensures Tested(Turns(n, s, a), n, s).None?
  {
    hide Tested, Turn, Turns, Heard;
    SameTurns(n, s, a, b, |a|);
    assert a[..|a|] == a;
    TurnAt(n, s, b, |a|);
    HeardPrefix(n, s, b, |a| + 1);
  }

  /** A rank that waits for an answer waits with the same traffic whenever it has heard the same answers. */
  lemma {:induction false} HeardDecides(n: nat, s: nat, a: seq<bool>, b: seq<bool>)
    requires s < n && Heard(n, s, a) == Heard(n, s, b)
    requires Tested(Turns(n, s, a), n, s).Some? && Tested(Turns(n, s, b), n, s).Some?
    ensures Turns(n, s, a) == Turns(n, s, b)
  {
    hide Tested, Turn, Turns, Heard;
    if |a| < |b| {
      HeardMore(n, s, a, b);
    } else if |b| < |a| {
      HeardMore(n, s, b, a);
    } else {
      SameTurns(n, s, a, b, |a|);
      assert a[..|a|] == a && b[..|b|] == b;
    }
  }

  /**
   Slot i of one direction is looked at.  If the direction has more to post, a free slot gets its next
   request, and one in use is tested and gets it if the answer is yes; `tested` is the partner asked for.
   Sends go upwards from s; receives take the own group of g ranks upwards, and the others downwards.
   */
  ghost predicate LooksAt(w: Window, w': Window, n: nat, s: nat, sending: bool, i: nat, yes: bool, tested: Option<nat>)
    requires s < n
  {
    && |w.posted| <= n && |w.slots| == 50 && i < 50
    && tested == (if |w.posted| < n then w.slots[i] else None)
    && if |w.posted| == n || (w.slots[i].Some? && !yes)
       then w' == w
       else
         var k, g := |w.posted|, if s + 50 <= n then 50 else n - s;
         var x := if sending then (s + k) % n else if k < g then s + k else (s + n - 1 - (k - g)) % n;
         w' == Window(w.posted + [x], w.slots[i := Some(x)])
  }

  /**
   What turn k does.  The first turns fill the slots with the own group of g ranks, receives before
   sends; from then on the turns go round receive slot 0, send slot 0, receive slot 1 and so on to 49.
   A turn changes nothing but its slot.
   */
  lemma {:induction false} TurnDoes(n: nat, s: nat, answers: seq<bool>, yes: bool)
    requires s < n
    ensures var t, t' := Turns(n, s, answers), Turns(n, s, answers + [yes]);
      var k, g := |answers|, if s + 50 <= n then 50 else n - s;
      var i := if k < g then k else if k < 2 * g then k - g else (k - 2 * g) % 100 / 2;
      if if k < 2 * g then k >= g else (k - 2 * g) % 2 == 1
      then LooksAt(t.send, t'.send, n, s, true, i, yes, Tested(t, n, s)) && t'.recv == t.recv
      else LooksAt(t.recv, t'.recv, n, s, false, i, yes, Tested(t, n, s)) && t'.send == t.send
  {
    hide Sound, Turn, Tested, Turns, Heard, Aim, LooksAt;
    TurnsSound(n, s, answers);
    OneMoreTurn(n, s, answers, yes);
    var t, k := Turns(n, s, answers), |answers|;
    AimAt(t, n, s, k);
    TurnIs(t, n, s, k, yes);
  }

  lemma {:induction false} AimAt(t: Traffic, n: nat, s: nat, k: nat)
    requires s < n && Sound(t, n, s, k)
    ensures var g := if s + 50 <= n then 50 else n - s;
      Aim(t, n, s) == (if k < 2 * g then k >= g else (k - 2 * g) % 2 == 1,
                       if k < g then k else if k < 2 * g then k - g else (k - 2 * g) % 100 / 2)
    ensures Aim(t, n, s).1 < 50
  {
    hide Sound, Turn, Tested, Aim;
    if k < 2 * (GroupEnd(s, n) - s) {
      BatchTurn(t, n, s, k, true);
    } else {
      LoopTurn(t, n, s, k, true);
      SameParity(k - 2 * (GroupEnd(s, n) - s));
    }
  }

  lemma {:induction false} SameParity(k: nat)
    ensures k % 100 % 2 == k % 2
  {
  }

  lemma {:induction false} TurnIs(t: Traffic, n: nat, s: nat, k: nat, yes: bool)
    requires s < n && Sound(t, n, s, k) && Aim(t, n, s).1 < MAX_CONCURRENT
    ensures var (sending, i) := Aim(t, n, s);
      var t' := Turn(t, n, s, yes);
      && LooksAt(Side(t, sending), Side(t', sending), n, s, sending, i, yes, Tested(t, n, s))
      && Side(t', !sending) == Side(t, !sending)
  {
    hide FilledInOrder, RecvSeq, SendSeq, Aim;
    var (sending, i) := Aim(t, n, s);
    var w := Side(t, sending);
    if |w.posted| < n {
      OrdersAre(n, s, |w.posted|);
    }
  }

  // ---------------------------------------------------------------- the first batch

  /** The requests posted to begin with: the own group; `next` is where the loop stopped. */
  method FirstBatch(n: nat, startingProc: nat, slots: array<Option<nat>>)
    returns (posted: seq<nat>, next: nat, end: nat)
    requires startingProc < n && slots.Length == MAX_CONCURRENT
    requires forall i :: 0 <= i < slots.Length ==> slots[i].None?
    modifies slots
    ensures posted == Span(startingProc, GroupEnd(startingProc, n)) && end == GroupEnd(startingProc, n) - 1
    ensures next == if GroupEnd(startingProc, n) < n then GroupEnd(startingProc, n) else 0
    ensures FilledInOrder(Window(posted, slots[..]))
  {
    posted, next, end := [], startingProc, startingProc;
    var i := 0;
    while i < MAX_CONCURRENT
      invariant i <= MAX_CONCURRENT && startingProc + i <= n && |posted| == i
      invariant posted == Span(startingProc, startingProc + i)
      invariant next == if startingProc + i < n then startingProc + i else 0
      invariant i > 0 ==> end == startingProc + i - 1
      invariant forall j :: 0 <= j < slots.Length ==> slots[j] == if j < i then Some(startingProc + j) else None
    {
      var proc := next;
      next := next + 1;
      next := if next >= n then next - n else next;
      if (i != 0 && proc == startingProc) || proc < startingProc {
        next := proc;
        break;
      }
      end := proc;
      slots[i] := Some(proc);
      posted := posted + [proc];
      i := i + 1;
    }
  }

  lemma {:induction false} BatchIsPrefix(n: nat, s: nat)
    requires s < n
    ensures var e := GroupEnd(s, n);
      && s < e <= n && Span(s, e) == SendSeq(n, s)[..e - s] && Span(s, e) == RecvSeq(n, s)[..e - s]
      && (e - s < n ==> SendSeq(n, s)[e - s] == if e < n then e else 0)
      && (e - s < n ==> RecvSeq(n, s)[e - s] == if s > 0 then s - 1 else n - 1)
      && (e - s == n ==> s == 0)
  {
  }

  ghost function NoAnswers(k: nat): (answers: seq<bool>)
    ensures |answers| == k
  {
    if k == 0 then [] else NoAnswers(k - 1) + [false]
  }

  /** The turns of the first batches make no test. */
  lemma {:induction false} NoTestYet(n: nat, s: nat, k: nat)
    requires s < n && k <= 2 * (GroupEnd(s, n) - s)
    ensures Heard(n, s, NoAnswers(k)) == []
  {
    hide Sound, Turn, Tested;
    if k > 0 {
      NoTestYet(n, s, k - 1);
      TurnsSound(n, s, NoAnswers(k - 1));
      BatchTurn(Turns(n, s, NoAnswers(k - 1)), n, s, k - 1, false);
      OneMoreTurn(n, s, NoAnswers(k - 1), false);
    }
  }

  lemma {:induction false} SameSlots(v: Window, w: Window)
    requires FilledInOrder(v) && FilledInOrder(w) && v.posted == w.posted && |v.slots| == |w.slots|
    ensures v == w
  {
    assert v.slots == w.slots;
  }

  // ---------------------------------------------------------------- the refill loop

  /** One direction of the source's variables: what is posted, and what comes next. */
  datatype Cursor = Cursor(posted: seq<nat>, next: nat)

  ghost predicate OnTrack(c: Cursor, order: seq<nat>, end: nat) {
    && |c.posted| <= |order| && c.posted == order[..|c.posted|]
    && c.next == (if |c.posted| < |order| then order[|c.posted|] else end)
  }

  /** The variables of the loop: where both directions are, how many answers were heard, and whether one is missing. */
  datatype Loop = Loop(recv: Cursor, send: Cursor, pos: nat, cut: bool)

  ghost predicate Going(l: Loop, n: nat, s: nat, recvSlots: seq<Option<nat>>, sendSlots: seq<Option<nat>>, at: nat,
                        tests: seq<bool>, answers: seq<bool>)
    requires s < n
  {
    && OnTrack(l.recv, RecvSeq(n, s), GroupEnd(s, n) - 1) && OnTrack(l.send, SendSeq(n, s), s)
    && |l.recv.posted| >= GroupEnd(s, n) - s && |l.send.posted| >= GroupEnd(s, n) - s
    && Turns(n, s, answers) == Traffic(Window(l.recv.posted, recvSlots), Window(l.send.posted, sendSlots), at)
    && l.pos <= |tests| && Heard(n, s, answers) == tests[..l.pos]
    && (l.cut ==> l.pos == |tests| && Tested(Turns(n, s, answers), n, s).Some?)
  }

  ghost function Progress(l: Loop): nat { |l.recv.posted| + |l.send.posted| + l.pos }

  lemma {:induction false} AtEnd(c: Cursor, n: nat, s: nat)
    requires s < n
    ensures OnTrack(c, RecvSeq(n, s), GroupEnd(s, n) - 1) && |c.posted| >= GroupEnd(s, n) - s ==>
      |c.posted| <= n && (c.next == GroupEnd(s, n) - 1 <==> |c.posted| == n)
    ensures OnTrack(c, SendSeq(n, s), s) && |c.posted| >= 1 ==> |c.posted| <= n && (c.next == s <==> |c.posted| == n)
  {
    hide RecvSeq, SendSeq;
    if GroupEnd(s, n) - s <= |c.posted| < n {
      RecvNext(n, s, |c.posted|);
    }
    if |c.posted| < n {
      SendNext(n, s, |c.posted|);
    }
  }

  /**
   Slot i of one direction, which has more to post: test the slot's request if there is one, and
   post the next if the slot is free.  `tests` are the answers of `ulm_test` in a run; `cut` says
   that the run ends here, waiting for an answer.
   */
  method Refill(c: Cursor, succ: nat, ghost order: seq<nat>, ghost end: nat, slots: array<Option<nat>>, i: nat,
                tests: seq<bool>, pos: nat)
    returns (c': Cursor, pos': nat, cut: bool, ghost answer: bool)
    requires OnTrack(c, order, end) && |c.posted| < |order| && i < slots.Length && pos <= |tests|
    requires succ == if |c.posted| + 1 < |order| then order[|c.posted| + 1] else end
    modifies slots
    ensures OnTrack(c', order, end)
    ensures cut <==> old(slots[i]).Some? && pos == |tests|
    ensures cut ==> c' == c && slots[..] == old(slots[..]) && pos' == pos
    ensures !cut ==> Window(c'.posted, slots[..]) == Refilled(Window(c.posted, old(slots[..])), order, i, answer)
    ensures !cut ==> pos' == pos + (if old(slots[i]).Some? then 1 else 0) <= |tests|
    ensures !cut && old(slots[i]).Some? ==> answer == tests[pos]
  {
    c', pos', cut, answer := c, pos, false, false;
    var completed := false;
    if slots[i].Some? {
      if pos == |tests| {
        cut := true;
        return;
      }
      completed := tests[pos];
      answer, pos' := completed, pos + 1;
    }
    if completed || slots[i].None? {
      c' := Cursor(c.posted + [c.next], succ);
      slots[i] := Some(c.next);
    }
  }

  lemma {:induction false} HeardNext(heard: seq<bool>, tests: seq<bool>, pos: nat)
    requires pos < |tests| && heard == tests[..pos]
    ensures heard + [tests[pos]] == tests[..pos + 1]
  {
  }

  /** The receive half of the turn of slot i. */
  method RecvTurn(l: Loop, n: nat, s: nat, end: nat, recvSlots: array<Option<nat>>, sendSlots: array<Option<nat>>,
                  i: nat, tests: seq<bool>, ghost answers: seq<bool>)
    returns (l': Loop, ghost answers': seq<bool>)
    requires s < n && recvSlots != sendSlots && Going(l, n, s, recvSlots[..], sendSlots[..], 2 * i, tests, answers)
    requires end == GroupEnd(s, n) - 1 && i < recvSlots.Length == sendSlots.Length == MAX_CONCURRENT && !l.cut
    modifies recvSlots
    ensures Going(l', n, s, recvSlots[..], sendSlots[..], if l'.cut then 2 * i else 2 * i + 1, tests, answers')
    ensures l'.send == l.send && (l'.cut || l.recv.next == end || Progress(l') > Progress(l))
    ensures l'.cut || l.recv.next != end || l' == l
    ensures Progress(l') >= Progress(l)
  {
    hide RecvSeq, SendSeq, GroupEnd, Turns, Heard;
    AtEnd(l.recv, n, s);
    ghost var t := Turns(n, s, answers);
    l', answers' := l, answers + [false];
    if l.recv.next != end {
      RecvNext(n, s, |l.recv.posted|);
      var next := if l.recv.next == 0 then n - 1 else l.recv.next - 1;
      ghost var sends := sendSlots[..];
      var c, pos, cut, answer := Refill(l.recv, next, RecvSeq(n, s), end, recvSlots, i, tests, l.pos);
      assert sendSlots[..] == sends;
      l' := Loop(c, l.send, pos, cut);
      answers' := if cut then answers else answers + [answer];
    }
    if !l'.cut {
      OneMoreTurn(n, s, answers, answers'[|answers|]);
      if l'.pos > l.pos {
        HeardNext(Heard(n, s, answers), tests, l.pos);
      }
    }
  }

  /** The send half of the turn of slot i. */
  method SendTurn(l: Loop, n: nat, s: nat, recvSlots: array<Option<nat>>, sendSlots: array<Option<nat>>, i: nat,
                  tests: seq<bool>, ghost answers: seq<bool>)
    returns (l': Loop, ghost answers': seq<bool>)
    requires s < n && recvSlots != sendSlots && Going(l, n, s, recvSlots[..], sendSlots[..], 2 * i + 1, tests, answers)
    requires i < recvSlots.Length == sendSlots.Length == MAX_CONCURRENT && !l.cut
    modifies sendSlots
    ensures Going(l', n, s, recvSlots[..], sendSlots[..],
                  if l'.cut then 2 * i + 1 else if i + 1 == MAX_CONCURRENT then 0 else 2 * i + 2, tests, answers')
    ensures l'.recv == l.recv && (l'.cut || l.send.next == s || Progress(l') > Progress(l))
    ensures l'.cut || l.send.next != s || l' == l
    ensures Progress(l') >= Progress(l)
  {
    hide RecvSeq, SendSeq, GroupEnd, Turns, Heard;
    GroupNotEmpty(s, n);
    AtEnd(l.send, n, s);
    l', answers' := l, answers + [false];
    if l.send.next != s {
      SendNext(n, s, |l.send.posted|);
      var next := if l.send.next + 1 >= n then l.send.next + 1 - n else l.send.next + 1;
      ghost var recvs := recvSlots[..];
      var c, pos, cut, answer := Refill(l.send, next, SendSeq(n, s), s, sendSlots, i, tests, l.pos);
      assert recvSlots[..] == recvs;
      l' := Loop(l.recv, c, pos, cut);
      answers' := if cut then answers else answers + [answer];
    }
    if !l'.cut {
      OneMoreTurn(n, s, answers, answers'[|answers|]);
      if l'.pos > l.pos {
        HeardNext(Heard(n, s, answers), tests, l.pos);
      }
    }
  }

  lemma {:induction false} GroupNotEmpty(s: nat, n: nat)
    requires s < n
    ensures s < GroupEnd(s, n) <= n
  {
  }

  /** One pass of the `for` loop over the slots. */
  method Pass(l0: Loop, n: nat, s: nat, end: nat, recvSlots: array<Option<nat>>, sendSlots: array<Option<nat>>,
              tests: seq<bool>, ghost answers0: seq<bool>)
    returns (l: Loop, ghost answers: seq<bool>, ghost at: nat)
    requires s < n && recvSlots != sendSlots && Going(l0, n, s, recvSlots[..], sendSlots[..], 0, tests, answers0)
    requires end == GroupEnd(s, n) - 1 && recvSlots.Length == sendSlots.Length == MAX_CONCURRENT && !l0.cut
    modifies recvSlots, sendSlots
    ensures Going(l, n, s, recvSlots[..], sendSlots[..], at, tests, answers) && (!l.cut ==> at == 0)
    ensures Progress(l) >= Progress(l0)
    ensures l.cut || Progress(l) > Progress(l0) || (l == l0 && l0.recv.next == end && l0.send.next == s)
  {
    hide Going, GroupEnd;
    l, answers, at := l0, answers0, 0;
    var i := 0;
    while i < MAX_CONCURRENT && !l.cut
      invariant Going(l, n, s, recvSlots[..], sendSlots[..], at, tests, answers)
      invariant i <= MAX_CONCURRENT && (!l.cut ==> at == if i == MAX_CONCURRENT then 0 else 2 * i)
      invariant i > 0 ==> l.cut || Progress(l) > Progress(l0) || (l == l0 && l0.recv.next == end && l0.send.next == s)
      invariant i == 0 ==> l == l0
      invariant Progress(l) >= Progress(l0)
    {
      l, answers := RecvTurn(l, n, s, end, recvSlots, sendSlots, i, tests, answers);
      if l.cut {
        at := 2 * i;
      } else {
        l, answers := SendTurn(l, n, s, recvSlots, sendSlots, i, tests, answers);
        at := if l.cut then 2 * i + 1 else if i + 1 == MAX_CONCURRENT then 0 else 2 * i + 2;
      }
      i := i + 1;
    }
  }

  lemma {:induction false} StartingProc(g: nat)
    ensures g / MAX_CONCURRENT * MAX_CONCURRENT <= g
  {
  }

  lemma {:induction false} GoingAtStart(l: Loop, n: nat, s: nat, recvSlots: seq<Option<nat>>,
                                        sendSlots: seq<Option<nat>>, tests: seq<bool>)
    requires s < n && !l.cut && l.pos == 0 && |recvSlots| == |sendSlots| == MAX_CONCURRENT
    requires l.recv.posted == l.send.posted == Span(s, GroupEnd(s, n))
    requires FilledInOrder(Window(l.recv.posted, recvSlots)) && FilledInOrder(Window(l.send.posted, sendSlots))
    requires l.recv.next == if s > 0 then s - 1 else if n > MAX_CONCURRENT then n - 1 else GroupEnd(s, n) - 1
    requires l.send.next == if GroupEnd(s, n) < n then GroupEnd(s, n) else 0
    ensures Going(l, n, s, recvSlots, sendSlots, 0, tests, NoAnswers(2 * (GroupEnd(s, n) - s)))
    ensures n <= MAX_CONCURRENT && s == 0 ==> |l.recv.posted| == n
  {
    hide RecvSeq, SendSeq, Turns, Heard, FilledInOrder;
    BatchIsPrefix(n, s);
    var k := 2 * (GroupEnd(s, n) - s);
    NoTestYet(n, s, k);
    TurnsSound(n, s, NoAnswers(k));
    var t := Turns(n, s, NoAnswers(k));
    SameSlots(t.recv, Window(l.recv.posted, recvSlots));
    SameSlots(t.send, Window(l.send.posted, sendSlots));
  }

  // ---------------------------------------------------------------- the collective on one rank

  /** How many of the tests found a request complete. */
  ghost function Trues(tests: seq<bool>): nat {
    if tests == [] then 0 else Trues(tests[..|tests| - 1]) + if tests[|tests| - 1] then 1 else 0
  }

  /** Every yes makes the rank post a request more. */
  lemma {:induction false} YesPosts(n: nat, s: nat, answers: seq<bool>)
    requires s < n
    ensures var t := Turns(n, s, answers); Trues(Heard(n, s, answers)) <= |t.recv.posted| + |t.send.posted|
    decreases |answers|
  {
    hide Turn, Tested, Sound;
    if answers != [] {
      var front, last := answers[..|answers| - 1], answers[|answers| - 1];
      YesPosts(n, s, front);
      TurnsSound(n, s, front);
      TurnPosts(Turns(n, s, front), n, s, |front|, last);
      var heard := Heard(n, s, front);
      assert (heard + [last])[..|heard|] == heard && heard + [] == heard;
    }
  }

  lemma {:induction false} TurnPosts(t: Traffic, n: nat, s: nat, k: nat, yes: bool)
    requires s < n && Sound(t, n, s, k)
    ensures var t' := Turn(t, n, s, yes);
      |t'.recv.posted| + |t'.send.posted| >=
      |t.recv.posted| + |t.send.posted| + if Tested(t, n, s).Some? && yes then 1 else 0
  {
    hide Turn, Tested, Sound, Aim;
    AimAt(t, n, s, k);
    TurnIs(t, n, s, k, yes);
  }

  /**
   What a rank posts in a run in which `ulm_test` gives the answers `tests`, up to the moment
   when it waits for a further answer (`cut`), or up to the end of the loop.
   */
  method UlmAlltoallv(commSize: nat, grpRank: nat, tests: seq<bool>)
    returns (recv: Window, send: Window, cut: bool, ghost answers: seq<bool>)
    requires grpRank < commSize
    ensures grpRank / 50 * 50 < commSize
    ensures var t := Turns(commSize, grpRank / 50 * 50, answers);
      && recv == t.recv && send == t.send
      && recv.posted <= RecvSeq(commSize, grpRank / 50 * 50) && send.posted <= SendSeq(commSize, grpRank / 50 * 50)
      && |recv.slots| == |send.slots| == 50
      && Heard(commSize, grpRank / 50 * 50, answers) <= tests
      && if cut
         then && Heard(commSize, grpRank / 50 * 50, answers) == tests && Trues(tests) < 2 * commSize
              && Tested(t, commSize, grpRank / 50 * 50).Some?
         else |recv.posted| == |send.posted| == commSize
  {
    hide Going, SendSeq, RecvSeq, OnTrack, Trues, Turns, Heard, FilledInOrder, Sound;
    StartingProc(grpRank);
    var startingProc := grpRank / MAX_CONCURRENT * MAX_CONCURRENT;
    BatchIsPrefix(commSize, startingProc);
    var recvSlots := new Option<nat>[MAX_CONCURRENT](i => None);
    var sendSlots := new Option<nat>[MAX_CONCURRENT](i => None);
    var recvs, nextRecv, endReceiving := FirstBatch(commSize, startingProc, recvSlots);
    // With one group only there is nothing left to receive, and the source never looks at its -1.
    nextRecv := if startingProc > 0 then startingProc - 1
                else if commSize > MAX_CONCURRENT then commSize - 1 else endReceiving;
    var sends, nextSend, _ := FirstBatch(commSize, startingProc, sendSlots);
    var l := Loop(Cursor(recvs, nextRecv), Cursor(sends, nextSend), 0, false);
    GoingAtStart(l, commSize, startingProc, recvSlots[..], sendSlots[..], tests);
    answers := NoAnswers(2 * (GroupEnd(startingProc, commSize) - startingProc));
    ghost var at := 0;
    var done := commSize <= MAX_CONCURRENT;
    while !done && !l.cut
      invariant Going(l, commSize, startingProc, recvSlots[..], sendSlots[..], at, tests, answers)
      invariant !l.cut ==> at == 0
      invariant done ==> |l.recv.posted| == |l.send.posted| == commSize && !l.cut
      decreases Budget(l, commSize, tests), !done, !l.cut
    {
      l, answers, at := Pass(l, commSize, startingProc, endReceiving, recvSlots, sendSlots, tests, answers);
      Bounds(l, commSize, startingProc, recvSlots[..], sendSlots[..], at, tests, answers);
      if !l.cut && l.send.next == startingProc && l.recv.next == endReceiving {
        done := true;
      }
    }
    recv, send, cut := Window(l.recv.posted, recvSlots[..]), Window(l.send.posted, sendSlots[..]), l.cut;
    Ends(l, commSize, startingProc, recvSlots[..], sendSlots[..], at, tests, answers);
  }

  ghost function Budget(l: Loop, n: nat, tests: seq<bool>): int { 2 * n + |tests| - Progress(l) }

  lemma {:induction false} Bounds(l: Loop, n: nat, s: nat, recvSlots: seq<Option<nat>>, sendSlots: seq<Option<nat>>,
                                  at: nat, tests: seq<bool>, answers: seq<bool>)
    requires s < n && Going(l, n, s, recvSlots, sendSlots, at, tests, answers)
    ensures 0 <= Budget(l, n, tests)
    ensures l.recv.next == GroupEnd(s, n) - 1 <==> |l.recv.posted| == n
    ensures l.send.next == s <==> |l.send.posted| == n
  {
    hide RecvSeq, SendSeq, Turns, Heard, OnTrack, Tested;
    GroupNotEmpty(s, n);
    AtEnd(l.recv, n, s);
    AtEnd(l.send, n, s);
  }

  lemma {:induction false} Ends(l: Loop, n: nat, s: nat, recvSlots: seq<Option<nat>>, sendSlots: seq<Option<nat>>,
                                at: nat, tests: seq<bool>, answers: seq<bool>)
    requires s < n && Going(l, n, s, recvSlots, sendSlots, at, tests, answers)
    ensures var t := Turns(n, s, answers);
      && t.recv == Window(l.recv.posted, recvSlots) && t.send == Window(l.send.posted, sendSlots)
      && t.recv.posted <= RecvSeq(n, s) && t.send.posted <= SendSeq(n, s)
      && Heard(n, s, answers) <= tests
      && (l.cut ==> Heard(n, s, answers) == tests && Trues(tests) < 2 * n && Tested(t, n, s).Some?)
  {
    hide RecvSeq, SendSeq, Turns, Heard, Trues;
    YesPosts(n, s, answers);
    assert tests[..|tests|] == tests;
  }

  /**
   When all ranks are done, the send that p posted for q and the receive that q posted for p
   are there exactly once each.
   */
  lemma {:induction false} EveryPairOnce(n: nat, p: nat, q: nat, sp: nat, sq: nat) returns (i: nat, j: nat)
    requires p < n && q < n && sp < n && sq < n
    ensures i < n && j < n && SendSeq(n, sp)[i] == q && RecvSeq(n, sq)[j] == p
    ensures forall k :: 0 <= k < n && SendSeq(n, sp)[k] == q ==> k == i
    ensures forall k :: 0 <= k < n && RecvSeq(n, sq)[k] == p ==> k == j
  {
    hide SendSeq, RecvSeq;
    OrdersArePermutations(n, sp);
    OrdersArePermutations(n, sq);
    assert q in SendSeq(n, sp) && p in RecvSeq(n, sq);
    i :| 0 <= i < n && SendSeq(n, sp)[i] == q;
    j :| 0 <= j < n && RecvSeq(n, sq)[j] == p;
  }
}
