/**
 All ranks together, each in its own loop of `ulm_alltoallv`.  Every run of the loops is a run of the
 windows of `AllToAllVRun`; and until all bytes have arrived some bytes can arrive or some rank posts
 a request in one of its next hundred turns.
 */
module AllToAllVLoop {
  import opened Layout
  import opened Network
  import opened StripedGather
  import opened AllToAllV
  import W = AllToAllVRun

  /** The traffic of every rank; `got[q]` lists the ranks whose bytes have arrived at q. */
  datatype State = State(ranks: seq<Traffic>, got: seq<seq<nat>>)

  /** The rank takes its next turn, and if that makes a test the answer is `yes`; or bytes arrive. */
  datatype Action = TakeTurn(rank: nat, yes: bool) | Deliver(from: nat, to: nat)

  ghost predicate Shaped(st: State, n: nat) { |st.ranks| == |st.got| == n }

  function Group(r: nat): (s: nat)
    ensures s <= r
  {
    W.GroupStart(r)
  }

  /** Have the bytes of the request of rank r, to or from q, arrived? */
  ghost predicate Arrived(st: State, n: nat, r: nat, sending: bool, q: nat)
    requires Shaped(st, n) && r < n
  {
    q < n && if sending then r in st.got[q] else q in st.got[r]
  }

  /** Is the request that the rank tests next complete? */
  ghost predicate IsComplete(st: State, n: nat, r: nat)
    requires Shaped(st, n) && r < n
  {
    var t := st.ranks[r];
    var tested := Tested(t, n, Group(r));
    tested.Some? && Arrived(st, n, r, Aim(t, n, Group(r)).0, tested.value)
  }

  /** A test never says yes too early; the bytes arrive only when both the send and the receive are posted. */
  ghost predicate Enabled(st: State, n: nat, a: Action)
    requires Shaped(st, n)
  {
    match a
    case TakeTurn(r, yes) => r < n && (yes ==> IsComplete(st, n, r))
    case Deliver(p, q) =>
      p < n && q < n && q in st.ranks[p].send.posted && p in st.ranks[q].recv.posted && p !in st.got[q]
  }

  ghost function Step(st: State, n: nat, a: Action): (st': State)
    requires Shaped(st, n) && Enabled(st, n, a)
    ensures Shaped(st', n)
  {
    match a
    case TakeTurn(r, yes) => st.(ranks := st.ranks[r := Turn(st.ranks[r], n, Group(r), yes)])
    case Deliver(p, q) => st.(got := st.got[q := st.got[q] + [p]])
  }

  ghost function Run(n: nat, actions: seq<Action>): (st: State)
    ensures Shaped(st, n)
  {
    if actions == [] then State(seq(n, r => Nothing()), seq(n, r => []))
    else
      var before, a := Run(n, actions[..|actions| - 1]), actions[|actions| - 1];
      if Enabled(before, n, a) then Step(before, n, a) else before
  }

  lemma {:induction false} RunStep(n: nat, actions: seq<Action>, a: Action)
    ensures var st := Run(n, actions);
      Run(n, actions + [a]) == if Enabled(st, n, a) then Step(st, n, a) else st
  {
    hide Enabled, Step;
    assert (actions + [a])[..|actions|] == actions;
  }

  // ---------------------------------------------------------------- every rank goes by its loop

  /** The answers that rank r got in its turns. */
  ghost function AnswersOf(n: nat, actions: seq<Action>, r: nat): seq<bool> {
    if actions == [] then []
    else
      var front, a := actions[..|actions| - 1], actions[|actions| - 1];
      AnswersOf(n, front, r) + if a.TakeTurn? && a.rank == r && Enabled(Run(n, front), n, a) then [a.yes] else []
  }

  /** Whatever the others do, what a rank has posted is what its loop posts, given the answers it got. */
  lemma {:induction false} RankRunsLoop(n: nat, actions: seq<Action>, r: nat)
    requires r < n
    ensures Run(n, actions).ranks[r] == Turns(n, Group(r), AnswersOf(n, actions, r))
    decreases |actions|
  {
    hide Enabled, Turn, Turns, Group;
    if actions != [] {
      var front, a := actions[..|actions| - 1], actions[|actions| - 1];
      RankRunsLoop(n, front, r);
      var answers := AnswersOf(n, front, r);
      assert answers + [] == answers;
      if a.TakeTurn? && a.rank == r && Enabled(Run(n, front), n, a) {
        OneMoreTurn(n, Group(r), answers, a.yes);
      }
    } else {
      NoTurn(n, Group(r));
    }
  }

  lemma {:induction false} NoTurn(n: nat, s: nat)
    requires s < n
    ensures Turns(n, s, []) == Nothing()
  {
  }

  /** The requests in the slots are different ones that were posted. */
  ghost predicate Held(w: Window) {
    && (forall i :: 0 <= i < |w.slots| && w.slots[i].Some? ==> w.slots[i].value in w.posted)
    && forall i, j :: 0 <= i < j < |w.slots| && w.slots[i].Some? ==> w.slots[i] != w.slots[j]
  }

  lemma {:induction false} HeldNext(w: Window, x: nat, i: nat)
    requires Held(w) && x !in w.posted && i < |w.slots|
    ensures Held(Window(w.posted + [x], w.slots[i := Some(x)]))
  {
  }

  lemma {:induction false} NextIsNew(posted: seq<nat>, order: seq<nat>, n: nat)
    requires IsPermutation(order, n) && posted <= order && |posted| < |order|
    ensures order[|posted|] !in posted && order[|posted|] < n
  {
  }

  lemma {:induction false} TurnsHeld(n: nat, s: nat, answers: seq<bool>)
    requires s < n
    ensures var t := Turns(n, s, answers); Held(t.recv) && Held(t.send)
    decreases |answers|
  {
    hide Turn, Held, Sound;
    if answers == [] {
      NothingHeld();
    } else {
      var front := answers[..|answers| - 1];
      TurnsHeld(n, s, front);
      TurnsSound(n, s, front);
      TurnHeld(Turns(n, s, front), n, s, |front|, answers[|front|]);
    }
  }

  lemma {:induction false} NothingHeld()
    ensures Held(Nothing().recv) && Held(Nothing().send)
  {
  }

  lemma {:induction false} TurnHeld(t: Traffic, n: nat, s: nat, k: nat, yes: bool)
    requires s < n && Sound(t, n, s, k) && Held(t.recv) && Held(t.send)
    ensures var t' := Turn(t, n, s, yes); Held(t'.recv) && Held(t'.send)
  {
    hide Held, Aim, SendSeq, RecvSeq, FilledInOrder;
    OrdersArePermutations(n, s);
    var (sending, i) := Aim(t, n, s);
    var w, order := Side(t, sending), Order(n, s, sending);
    if |w.posted| < n && i < |w.slots| {
      NextIsNew(w.posted, order, n);
      HeldNext(w, order[|w.posted|], i);
    }
  }

  // ---------------------------------------------------------------- a run of the windows

  ghost function InSlots(slots: seq<Option<nat>>): (held: set<nat>)
    ensures forall q :: q in held <==> Some(q) in slots
  {
    set o | o in slots && o.Some? :: o.value
  }

  /** The requests found complete are those that are in no slot any more. */
  ghost function Abstract(w: Window): W.Side { W.Side(|w.posted|, W.Members(w.posted) - InSlots(w.slots)) }

  ghost function Windows(st: State, n: nat): (ws: W.State)
    requires Shaped(st, n)
    ensures |ws.send| == |ws.recv| == n && ws.got == st.got
    ensures forall r :: 0 <= r < n ==>
      ws.send[r] == Abstract(st.ranks[r].send) && ws.recv[r] == Abstract(st.ranks[r].recv)
  {
    W.State(seq(n, r requires 0 <= r < n => Abstract(st.ranks[r].send)),
            seq(n, r requires 0 <= r < n => Abstract(st.ranks[r].recv)), st.got)
  }

  /** Does the turn post a request? */
  ghost predicate Posts(t: Traffic, n: nat, s: nat, yes: bool)
    requires s < n
  {
    var (sending, i) := Aim(t, n, s);
    var w := Side(t, sending);
    |w.posted| < n && i < |w.slots| && (w.slots[i].None? || yes)
  }

  /** What an action is to the windows. */
  ghost function Projected(st: State, n: nat, a: Action): seq<W.Action>
    requires Shaped(st, n)
  {
    if !Enabled(st, n, a) then []
    else
      match a
      case Deliver(p, q) => [W.Deliver(p, q)]
      case TakeTurn(r, yes) =>
        if !Posts(st.ranks[r], n, Group(r), yes) then []
        else
          var (sending, i) := Aim(st.ranks[r], n, Group(r));
          [W.Post(r, sending, Side(st.ranks[r], sending).slots[i])]
  }

  ghost function Project(n: nat, actions: seq<Action>): seq<W.Action> {
    if actions == [] then []
    else
      var front := actions[..|actions| - 1];
      Project(n, front) + Projected(Run(n, front), n, actions[|actions| - 1])
  }


  /** A rank's traffic as it is in every run. */
  ghost predicate Orderly(t: Traffic, n: nat, s: nat)
    requires s < n
  {
    && |t.recv.slots| == |t.send.slots| == MAX_CONCURRENT && t.at < 2 * MAX_CONCURRENT
    && t.recv.posted <= RecvSeq(n, s) && t.send.posted <= SendSeq(n, s) && Held(t.recv) && Held(t.send)
    && Aim(t, n, s).1 < MAX_CONCURRENT
  }

  ghost predicate Inv(st: State, n: nat) {
    Shaped(st, n) && forall r :: 0 <= r < n ==> Orderly(st.ranks[r], n, Group(r))
  }

  lemma {:induction false} RunKeepsInv(n: nat, actions: seq<Action>)
    ensures Inv(Run(n, actions), n)
  {
    hide Run, Held, AnswersOf, Turns, Aim, SendSeq, RecvSeq, FilledInOrder, Group;
    forall r | 0 <= r < n
      ensures Orderly(Run(n, actions).ranks[r], n, Group(r))
    {
      var answers := AnswersOf(n, actions, r);
      RankRunsLoop(n, actions, r);
      TurnsSound(n, Group(r), answers);
      TurnsHeld(n, Group(r), answers);
      AimAt(Turns(n, Group(r), answers), n, Group(r), |answers|);
    }
  }

  // ---------------------------------------------------------------- slots

  lemma {:induction false} AtMost(slots: seq<Option<nat>>)
    ensures |InSlots(slots)| <= |slots|
    decreases |slots|
  {
    hide InSlots;
    if slots == [] {
      assert InSlots(slots) == {};
    } else {
      var front, last := slots[..|slots| - 1], slots[|slots| - 1];
      AtMost(front);
      assert slots == front + [last];
      assert InSlots(slots) == InSlots(front) + if last.Some? then {last.value} else {};
    }
  }

  /** A free slot, and one fewer that can be in use. */
  lemma {:induction false} OneFree(slots: seq<Option<nat>>, i: nat)
    requires i < |slots| && slots[i].None?
    ensures |InSlots(slots)| < |slots|
  {
    hide InSlots;
    var rest := slots[..i] + slots[i + 1..];
    AtMost(rest);
    assert slots == slots[..i] + [slots[i]] + slots[i + 1..];
    assert InSlots(slots) == InSlots(rest);
  }

  lemma {:induction false} AllUsed(slots: seq<Option<nat>>)
    requires forall i :: 0 <= i < |slots| ==> slots[i].Some?
    requires forall i, j :: 0 <= i < j < |slots| && slots[i].Some? ==> slots[i] != slots[j]
    ensures |InSlots(slots)| == |slots|
    decreases |slots|
  {
    hide InSlots;
    if slots == [] {
      assert InSlots(slots) == {};
    } else {
      var front, last := slots[..|slots| - 1], slots[|slots| - 1];
      AllUsed(front);
      assert slots == front + [last];
      assert InSlots(slots) == InSlots(front) + {last.value};
      assert last !in front;
    }
  }

  /** What is posted and was not found complete is what the slots hold. */
  lemma {:induction false} Outstanding(w: Window)
    requires Held(w) && NoDuplicates(w.posted)
    ensures |w.posted| - |Abstract(w).freed| == |InSlots(w.slots)|
    ensures W.Members(w.posted) - Abstract(w).freed == InSlots(w.slots)
  {
    hide InSlots, W.Members;
    W.MemberCount(w.posted);
    assert InSlots(w.slots) <= W.Members(w.posted);
  }

  ghost function Freed(slot: Option<nat>): set<nat> { match slot case None => {} case Some(q) => {q} }

  lemma {:induction false} SlotTaken(w: Window, x: nat, i: nat)
    requires Held(w) && x !in w.posted && i < |w.slots|
    ensures var w' := Window(w.posted + [x], w.slots[i := Some(x)]);
      Abstract(w') == W.Side(|w.posted| + 1, Abstract(w).freed + Freed(w.slots[i]))
  {
    var w', freed := Window(w.posted + [x], w.slots[i := Some(x)]), Abstract(w).freed + Freed(w.slots[i]);
    InSlotsNext(w, x, i);
    assert W.Members(w'.posted) == W.Members(w.posted) + {x};
    assert Abstract(w').freed == freed;
  }

  lemma {:induction false} InSlotsNext(w: Window, x: nat, i: nat)
    requires Held(w) && x !in w.posted && i < |w.slots|
    ensures InSlots(w.slots[i := Some(x)]) == InSlots(w.slots) - Freed(w.slots[i]) + {x}
    ensures Freed(w.slots[i]) <= InSlots(w.slots) <= W.Members(w.posted)
  {
    hide InSlots, W.Members;
    var slots, slots' := w.slots, w.slots[i := Some(x)];
    forall q
      ensures Some(q) in slots' <==> q == x || (Some(q) in slots && slots[i] != Some(q))
    {
      StillThere(slots, i, x, q);
    }
    assert slots[i] in slots;
  }

  lemma {:induction false} StillThere(slots: seq<Option<nat>>, i: nat, x: nat, q: nat)
    requires i < |slots| && forall i, j :: 0 <= i < j < |slots| && slots[i].Some? ==> slots[i] != slots[j]
    ensures Some(q) in slots[i := Some(x)] <==> q == x || (Some(q) in slots && slots[i] != Some(q))
  {
    var slots' := slots[i := Some(x)];
    assert slots'[i] == Some(x);
    if Some(q) in slots && slots[i] != Some(q) {
      var j :| 0 <= j < |slots| && slots[j] == Some(q);
      assert slots'[j] == Some(q);
    }
    if Some(q) in slots' && q != x {
      var j :| 0 <= j < |slots| && slots'[j] == Some(q);
      assert slots[j] == Some(q);
    }
  }

  // ---------------------------------------------------------------- a turn is a step of the windows

  lemma {:induction false} WindowsShaped(st: State, n: nat)
    requires Inv(st, n)
    ensures W.Shaped(Windows(st, n), n)
  {
    hide Held, Aim, SendSeq, RecvSeq, InSlots, W.Members;
    forall r | 0 <= r < n
      ensures |st.ranks[r].send.posted| <= n && |st.ranks[r].recv.posted| <= n
    {
      assert Orderly(st.ranks[r], n, Group(r));
    }
  }

  /** One direction of a rank, in both views. */
  lemma {:induction false} SameSide(st: State, n: nat, r: nat, sending: bool)
    requires Inv(st, n) && r < n && W.Shaped(Windows(st, n), n)
    ensures var w := Side(st.ranks[r], sending);
      && W.SideOf(Windows(st, n), r, sending) == Abstract(w) && |w.slots| == MAX_CONCURRENT && Held(w)
      && w.posted <= W.OrderOf(n, r, sending) && NoDuplicates(w.posted)
      && W.PostedTo(Windows(st, n), n, r, sending) == W.Members(w.posted)
  {
    hide Held, Aim, SendSeq, RecvSeq, InSlots, W.Members;
    assert Orderly(st.ranks[r], n, Group(r));
    W.OrderDistinct(n, r, sending);
    var w, order := Side(st.ranks[r], sending), W.OrderOf(n, r, sending);
    assert order[..|w.posted|] == w.posted;
  }

  /** A turn that posts, on the side it posts on. */
  lemma {:induction false} PostingTurn(st: State, n: nat, r: nat, yes: bool)
    requires Inv(st, n) && r < n && Posts(st.ranks[r], n, Group(r), yes)
    ensures var (sending, i) := Aim(st.ranks[r], n, Group(r));
      var w, w' := Side(st.ranks[r], sending), Side(Turn(st.ranks[r], n, Group(r), yes), sending);
      && i < |w.slots| && Abstract(w') == W.Side(Abstract(w).posted + 1, Abstract(w).freed + Freed(w.slots[i]))
      && Side(Turn(st.ranks[r], n, Group(r), yes), !sending) == Side(st.ranks[r], !sending)
  {
    hide Held, Aim, SendSeq, RecvSeq, InSlots, W.Members, Freed, Group;
    assert Orderly(st.ranks[r], n, Group(r));
    var (sending, i) := Aim(st.ranks[r], n, Group(r));
    var w, order := Side(st.ranks[r], sending), Order(n, Group(r), sending);
    OrdersArePermutations(n, Group(r));
    NextIsNew(w.posted, order, n);
    SlotTaken(w, order[|w.posted|], i);
  }

  /** The windows let a rank post where its loop does. */
  lemma {:induction false} TurnEnabled(st: State, n: nat, r: nat, yes: bool)
    requires Inv(st, n) && Enabled(st, n, TakeTurn(r, yes)) && Posts(st.ranks[r], n, Group(r), yes)
    requires W.Shaped(Windows(st, n), n)
    ensures var (sending, i) := Aim(st.ranks[r], n, Group(r));
      W.CanPost(Windows(st, n), n, r, sending, Side(st.ranks[r], sending).slots[i])
  {
    hide Held, Aim, SendSeq, RecvSeq, InSlots, W.Members, W.PostedTo, W.OrderOf;
    var (sending, i) := Aim(st.ranks[r], n, Group(r));
    SameSide(st, n, r, sending);
    var w := Side(st.ranks[r], sending);
    Outstanding(w);
    if w.slots[i].None? {
      OneFree(w.slots, i);
    } else {
      assert w.slots[i] in w.slots;
    }
  }

  lemma {:induction false} OneRank(st: State, n: nat, r: nat, t: Traffic)
    requires Shaped(st, n) && r < n
    ensures var ws := Windows(st, n);
      Windows(st.(ranks := st.ranks[r := t]), n) ==
      W.State(ws.send[r := Abstract(t.send)], ws.recv[r := Abstract(t.recv)], ws.got)
  {
    hide Abstract;
    var ws, next := Windows(st, n), Windows(st.(ranks := st.ranks[r := t]), n);
    assert next.send == ws.send[r := Abstract(t.send)];
    assert next.recv == ws.recv[r := Abstract(t.recv)];
  }

  lemma {:induction false} PostRefines(st: State, n: nat, r: nat, yes: bool)
    requires Inv(st, n) && Enabled(st, n, TakeTurn(r, yes)) && W.Shaped(Windows(st, n), n)
    requires Posts(st.ranks[r], n, Group(r), yes)
    ensures var (sending, i) := Aim(st.ranks[r], n, Group(r));
      var a := W.Post(r, sending, Side(st.ranks[r], sending).slots[i]);
      && W.Enabled(Windows(st, n), n, a)
      && Windows(Step(st, n, TakeTurn(r, yes)), n) == W.Step(Windows(st, n), n, a)
  {
    hide Orderly, Abstract, Aim, W.CanPost, IsComplete, Posts, Turn, Group, W.Step, Freed, W.PostedTo;
    TurnEnabled(st, n, r, yes);
    PostingTurn(st, n, r, yes);
    OneRank(st, n, r, Turn(st.ranks[r], n, Group(r), yes));
    var (sending, i) := Aim(st.ranks[r], n, Group(r));
    SameSide(st, n, r, sending);
    var ws, w := Windows(st, n), Side(st.ranks[r], sending);
    assert ws.send[r := ws.send[r]] == ws.send && ws.recv[r := ws.recv[r]] == ws.recv;
    PostStep(ws, n, r, sending, w.slots[i]);
  }

  lemma {:induction false} PostStep(ws: W.State, n: nat, r: nat, sending: bool, slot: Option<nat>)
    requires W.Shaped(ws, n) && W.Enabled(ws, n, W.Post(r, sending, slot))
    ensures var side := W.SideOf(ws, r, sending);
      var next := W.Side(side.posted + 1, side.freed + Freed(slot));
      W.Step(ws, n, W.Post(r, sending, slot)) ==
      if sending then W.State(ws.send[r := next], ws.recv, ws.got) else W.State(ws.send, ws.recv[r := next], ws.got)
  {
    hide W.PostedTo, W.IsComplete;
  }

  lemma {:induction false} IdleRefines(st: State, n: nat, r: nat, yes: bool)
    requires Shaped(st, n) && Enabled(st, n, TakeTurn(r, yes)) && !Posts(st.ranks[r], n, Group(r), yes)
    ensures Windows(Step(st, n, TakeTurn(r, yes)), n) == Windows(st, n)
  {
    hide Abstract, Aim, IsComplete, Group, RecvSeq, SendSeq;
    OneRank(st, n, r, Turn(st.ranks[r], n, Group(r), yes));
    var ws := Windows(st, n);
    assert ws.send[r := ws.send[r]] == ws.send && ws.recv[r := ws.recv[r]] == ws.recv;
  }

  lemma {:induction false} DeliverRefines(st: State, n: nat, p: nat, q: nat)
    requires Inv(st, n) && p < n && q < n && W.Shaped(Windows(st, n), n)
    ensures Enabled(st, n, Deliver(p, q)) <==> W.Enabled(Windows(st, n), n, W.Deliver(p, q))
    ensures Enabled(st, n, Deliver(p, q)) ==>
      Windows(Step(st, n, Deliver(p, q)), n) == W.Step(Windows(st, n), n, W.Deliver(p, q))
  {
    hide Inv, Abstract, W.CanPost, W.PostedTo, Held;
    SameSide(st, n, p, true);
    SameSide(st, n, q, false);
  }

  /** Every run of the loops is a run of the windows, with the same arrivals. */
  lemma {:induction false} LoopsAreRun(n: nat, actions: seq<Action>)
    ensures W.Run(n, Project(n, actions)) == Windows(Run(n, actions), n)
    decreases |actions|
  {
    hide Inv, Enabled, Step, Posts, Abstract, W.Enabled, W.Step, Aim;
    if actions == [] {
      StartsTheSame(n);
    } else {
      var front, a := actions[..|actions| - 1], actions[|actions| - 1];
      LoopsAreRun(n, front);
      RunKeepsInv(n, front);
      ActionRefines(n, Project(n, front), Run(n, front), a);
    }
  }


  lemma {:induction false} StartsTheSame(n: nat)
    ensures W.Start(n) == Windows(Run(n, []), n)
  {
    assert W.Members([]) == {};
    assert Abstract(Nothing().send) == W.Side(0, {});
  }

  lemma {:induction false} OneMoreStep(n: nat, actions: seq<W.Action>, a: W.Action)
    ensures var st := W.Run(n, actions);
      W.Run(n, actions + [a]) == if W.Enabled(st, n, a) then W.Step(st, n, a) else st
  {
    hide W.Enabled, W.Step;
    assert (actions + [a])[..|actions|] == actions;
  }

  lemma {:induction false} ActionRefines(n: nat, actions: seq<W.Action>, st: State, a: Action)
    requires Inv(st, n) && W.Run(n, actions) == Windows(st, n)
    ensures W.Run(n, actions + Projected(st, n, a)) == Windows(if Enabled(st, n, a) then Step(st, n, a) else st, n)
  {
    hide Orderly, Step, Posts, W.Enabled, W.Step, W.Run, Aim, Windows, IsComplete;
    WindowsShaped(st, n);
    var added := Projected(st, n, a);
    assert actions + [] == actions;
    if Enabled(st, n, a) {
      if a.Deliver? {
        DeliverRefines(st, n, a.from, a.to);
      } else if Posts(st.ranks[a.rank], n, Group(a.rank), a.yes) {
        PostRefines(st, n, a.rank, a.yes);
      } else {
        IdleRefines(st, n, a.rank, a.yes);
      }
      if added != [] {
        OneMoreStep(n, actions, added[0]);
      }
    }
  }


  // ---------------------------------------------------------------- some rank gets on

  ghost predicate AllArrived(st: State, n: nat)
    requires Shaped(st, n)
  {
    forall p, q :: 0 <= p < n && 0 <= q < n ==> p in st.got[q]
  }

  /** The actions, and then k turns of rank r in which every test of a complete request says yes. */
  ghost function Onward(n: nat, actions: seq<Action>, r: nat, k: nat): seq<Action>
    requires r < n
  {
    if k == 0 then actions
    else var so := Onward(n, actions, r, k - 1); so + [TakeTurn(r, IsComplete(Run(n, so), n, r))]
  }

  ghost function Requests(t: Traffic): nat { |t.recv.posted| + |t.send.posted| }

  /** A slot that a turn of this direction at this slot would fill. */
  ghost predicate Fillable(st: State, n: nat, r: nat, sending: bool, i: nat)
    requires Shaped(st, n) && r < n
  {
    var w := Side(st.ranks[r], sending);
    i < |w.slots| && |w.posted| < n && (w.slots[i].Some? ==> Arrived(st, n, r, sending, w.slots[i].value))
  }

  ghost predicate BatchOver(t: Traffic, n: nat, s: nat)
    requires s < n
  {
    |t.recv.posted| >= GroupEnd(s, n) - s && |t.send.posted| >= GroupEnd(s, n) - s
  }

  lemma {:induction false} TurnGoes(t: Traffic, n: nat, s: nat, k: nat, yes: bool)
    requires s < n && Sound(t, n, s, k)
    ensures var t' := Turn(t, n, s, yes);
      if Posts(t, n, s, yes) then Requests(t') == Requests(t) + 1
      else
        && t'.recv == t.recv && t'.send == t.send && BatchOver(t, n, s)
        && t'.at == if t.at + 1 == 2 * MAX_CONCURRENT then 0 else t.at + 1
  {
    hide Turn, Posts, Sound;
    if k < 2 * (GroupEnd(s, n) - s) {
      BatchPosts(t, n, s, k, yes);
    } else {
      LoopGoes(t, n, s, k, yes);
    }
  }

  lemma {:induction false} BatchPosts(t: Traffic, n: nat, s: nat, k: nat, yes: bool)
    requires s < n && Sound(t, n, s, k) && k < 2 * (GroupEnd(s, n) - s)
    ensures Posts(t, n, s, yes) && Requests(Turn(t, n, s, yes)) == Requests(t) + 1
  {
    hide Turn, FilledInOrder, RecvSeq, SendSeq, Aim;
    BatchTurn(t, n, s, k, yes);
  }

  lemma {:induction false} LoopGoes(t: Traffic, n: nat, s: nat, k: nat, yes: bool)
    requires s < n && Sound(t, n, s, k) && k >= 2 * (GroupEnd(s, n) - s)
    ensures BatchOver(t, n, s)
    ensures var t' := Turn(t, n, s, yes);
      if Posts(t, n, s, yes) then Requests(t') == Requests(t) + 1
      else
        && t'.recv == t.recv && t'.send == t.send
        && t'.at == if t.at + 1 == 2 * MAX_CONCURRENT then 0 else t.at + 1
  {
    hide FilledInOrder, RecvSeq, SendSeq, Aim;
    AfterAt(t.at);
  }

  lemma {:induction false} AfterAt(at: nat)
    requires at < 2 * MAX_CONCURRENT
    ensures (at + 1) % (2 * MAX_CONCURRENT) == if at + 1 == 2 * MAX_CONCURRENT then 0 else at + 1
  {
  }

  /** The rank's turn has come to a slot that can be filled. */
  lemma {:induction false} TurnHasCome(st: State, n: nat, r: nat, sending: bool, i: nat)
    requires Shaped(st, n) && r < n && Fillable(st, n, r, sending, i) && BatchOver(st.ranks[r], n, Group(r))
    requires st.ranks[r].at == 2 * i + if sending then 1 else 0
    ensures Posts(st.ranks[r], n, Group(r), IsComplete(st, n, r))
  {
    hide Group, Arrived;
    assert Aim(st.ranks[r], n, Group(r)) == (sending, i);
  }

  /** How many turns it takes to come from one place to another. */
  function Away(at: nat, to: nat): int { if at <= to then to - at else to + 2 * MAX_CONCURRENT - at }

  lemma {:induction false} OneTurn(n: nat, actions: seq<Action>, r: nat, k: nat)
    requires r < n
    ensures var st, st' := Run(n, Onward(n, actions, r, k)), Run(n, Onward(n, actions, r, k + 1));
      st' == st.(ranks := st.ranks[r := Turn(st.ranks[r], n, Group(r), IsComplete(st, n, r))])
  {
    hide Run, Turn, IsComplete, Group;
    var so := Onward(n, actions, r, k);
    RunStep(n, so, TakeTurn(r, IsComplete(Run(n, so), n, r)));
  }

  lemma {:induction false} RankSound(n: nat, actions: seq<Action>, r: nat) returns (k: nat)
    requires r < n
    ensures Sound(Run(n, actions).ranks[r], n, Group(r), k)
  {
    hide Run, Turns, AnswersOf, Sound;
    RankRunsLoop(n, actions, r);
    TurnsSound(n, Group(r), AnswersOf(n, actions, r));
    k := |AnswersOf(n, actions, r)|;
  }

  /** After j turns in vain: the rank goes on to the slot that can be filled. */
  lemma {:induction false} Reaches(n: nat, actions: seq<Action>, r: nat, sending: bool, i: nat, j: nat) returns (k: nat)
    requires r < n && i < MAX_CONCURRENT
    requires var st := Run(n, Onward(n, actions, r, j));
      && Fillable(st, n, r, sending, i) && Requests(st.ranks[r]) == Requests(Run(n, actions).ranks[r])
      && st.ranks[r].at < 2 * MAX_CONCURRENT
      && j + Away(st.ranks[r].at, 2 * i + if sending then 1 else 0) < 2 * MAX_CONCURRENT
    ensures j < k <= 2 * MAX_CONCURRENT
    ensures Requests(Run(n, Onward(n, actions, r, k)).ranks[r]) > Requests(Run(n, actions).ranks[r])
    decreases 2 * MAX_CONCURRENT - j
  {
    hide Run, Onward, IsComplete, Turn, Posts, Sound, Group, Arrived, BatchOver;
    var st := Run(n, Onward(n, actions, r, j));
    var c := RankSound(n, Onward(n, actions, r, j), r);
    TurnGoes(st.ranks[r], n, Group(r), c, IsComplete(st, n, r));
    OneTurn(n, actions, r, j);
    if Posts(st.ranks[r], n, Group(r), IsComplete(st, n, r)) {
      k := j + 1;
    } else {
      if st.ranks[r].at == 2 * i + if sending then 1 else 0 {
        TurnHasCome(st, n, r, sending, i);
      } else {
        StillFillable(st, Run(n, Onward(n, actions, r, j + 1)), n, r, sending, i);
        k := Reaches(n, actions, r, sending, i, j + 1);
      }
    }
  }

  lemma {:induction false} StillFillable(st: State, st': State, n: nat, r: nat, sending: bool, i: nat)
    requires Shaped(st, n) && Shaped(st', n) && r < n && Fillable(st, n, r, sending, i) && st'.got == st.got
    requires st'.ranks[r].recv == st.ranks[r].recv && st'.ranks[r].send == st.ranks[r].send
    ensures Fillable(st', n, r, sending, i)
  {
  }

  /** Where the windows let a rank post, its loop has a slot to fill. */
  lemma {:induction false} SlotToFill(st: State, n: nat, r: nat, sending: bool, freeing: Option<nat>) returns (i: nat)
    requires Inv(st, n) && W.Shaped(Windows(st, n), n) && W.CanPost(Windows(st, n), n, r, sending, freeing)
    ensures i < MAX_CONCURRENT && Fillable(st, n, r, sending, i)
  {
    hide Held, Orderly, SendSeq, RecvSeq, InSlots, W.Members, W.PostedTo, W.OrderOf;
    SameSide(st, n, r, sending);
    var w := Side(st.ranks[r], sending);
    Outstanding(w);
    match freeing
    case None => i := FreeSlot(w);
    case Some(q) => i :| 0 <= i < |w.slots| && w.slots[i] == Some(q);
  }

  lemma {:induction false} FreeSlot(w: Window) returns (i: nat)
    requires Held(w) && |InSlots(w.slots)| < |w.slots|
    ensures i < |w.slots| && w.slots[i].None?
  {
    hide InSlots;
    if j: nat :| j < |w.slots| && w.slots[j].None? {
      i := j;
    } else {
      AllUsed(w.slots);
      assert false;
    }
  }

  /**
   In every run of the loops, until all bytes have arrived either some bytes can arrive, or some rank
   posts a further request within its next hundred turns if the tests of complete requests say yes.
   */
  lemma {:induction false} LoopsNeverStuck(n: nat, actions: seq<Action>)
    ensures var st := Run(n, actions);
      || AllArrived(st, n)
      || (exists p, q :: Enabled(st, n, Deliver(p, q)))
      || exists r, k :: 0 <= r < n && 0 <= k <= 100 &&
           Requests(Run(n, Onward(n, actions, r, k)).ranks[r]) > Requests(st.ranks[r])
  {
    hide Run, W.Run, Project, Inv, Windows, W.CanPost, Fillable, Requests;
    var st := Run(n, actions);
    LoopsAreRun(n, actions);
    RunKeepsInv(n, actions);
    W.NeverStuck(n, Project(n, actions));
    if !AllArrived(st, n) {
      SameArrivals(st, n);
      var a :| W.Enabled(Windows(st, n), n, a);
      if a.Deliver? {
        DeliverRefines(st, n, a.from, a.to);
        assert Enabled(st, n, Deliver(a.from, a.to));
      } else {
        var k := PostsSoon(n, actions, a.rank, a.sending, a.freeing);
      }
    }
  }

  lemma {:induction false} SameArrivals(st: State, n: nat)
    requires Shaped(st, n) && W.Shaped(Windows(st, n), n)
    ensures W.AllComplete(Windows(st, n), n) <==> AllArrived(st, n)
  {
    hide Abstract;
    assert forall p, q :: 0 <= p < n && 0 <= q < n ==> (W.Arrived(Windows(st, n), n, p, q) <==> p in st.got[q]);
  }

  lemma {:induction false} PostsSoon(n: nat, actions: seq<Action>, r: nat, sending: bool, freeing: Option<nat>)
    returns (k: nat)
    requires var st := Run(n, actions);
      Inv(st, n) && W.Shaped(Windows(st, n), n) && W.CanPost(Windows(st, n), n, r, sending, freeing)
    ensures r < n && k <= 100
    ensures Requests(Run(n, Onward(n, actions, r, k)).ranks[r]) > Requests(Run(n, actions).ranks[r])
  {
    hide Run, Inv, Windows, W.PostedTo, W.IsComplete, Fillable;
    var i := SlotToFill(Run(n, actions), n, r, sending, freeing);
    var c := RankSound(n, actions, r);
    k := Reaches(n, actions, r, sending, i, 0);
  }


  /** What a rank waits with is decided by the answers it has heard, whatever else went on in the run. */
  lemma {:induction false} WaitsLikeAlone(n: nat, actions: seq<Action>, r: nat, answers: seq<bool>)
    requires r < n && Tested(Run(n, actions).ranks[r], n, Group(r)).Some?
    requires Tested(Turns(n, Group(r), answers), n, Group(r)).Some?
    requires Heard(n, Group(r), answers) == Heard(n, Group(r), AnswersOf(n, actions, r))
    ensures Run(n, actions).ranks[r] == Turns(n, Group(r), answers)
  {
    hide Run, Turns, Heard, Tested, AnswersOf, Group;
    RankRunsLoop(n, actions, r);
    HeardDecides(n, Group(r), answers, AnswersOf(n, actions, r));
  }

  // ---------------------------------------------------------------- the bytes

  /** The receive buffers after some actions. */
  ghost function Memory<T>(job: W.Job<T>, before: seq<seq<T>>, actions: seq<Action>): (mem: seq<seq<T>>)
    requires W.ValidJob(job, before)
    ensures |mem| == |before|
  {
    if actions == [] then before
    else
      var mem, st := Memory(job, before, actions[..|actions| - 1]), Run(|before|, actions[..|actions| - 1]);
      match actions[|actions| - 1]
      case Deliver(p, q) =>
        if Enabled(st, |before|, Deliver(p, q))
        then mem[q := Write(mem[q], job.displs[q][p], Read(job.sendbuf[p], job.send[p][q]))]
        else mem
      case _ => mem
  }

  lemma {:induction false} MemoryStep<T>(job: W.Job<T>, before: seq<seq<T>>, actions: seq<W.Action>, a: W.Action)
    requires W.ValidJob(job, before)
    ensures var mem, st, n := W.Memory(job, before, actions), W.Run(|before|, actions), |before|;
      W.Memory(job, before, actions + [a]) ==
      match a
      case Post(_, _, _) => mem
      case Deliver(p, q) =>
        if W.Enabled(st, n, a)
        then mem[q := Write(mem[q], job.displs[q][p], Read(job.sendbuf[p], job.send[p][q]))]
        else mem
  {
    hide W.Run, Write, Read, W.Matched;
    assert (actions + [a])[..|actions|] == actions;
  }

  /** The loops write what the windows write. */
  lemma {:induction false} SameMemory<T>(job: W.Job<T>, before: seq<seq<T>>, actions: seq<Action>)
    requires W.ValidJob(job, before)
    ensures Memory(job, before, actions) == W.Memory(job, before, Project(|before|, actions))
    decreases |actions|
  {
    hide Run, W.Run, W.ValidJob, Write, Read, W.Memory, Inv, IsComplete, Posts, Aim;
    if actions == [] {
      NothingWritten(job, before);
    } else {
      var n, front, a := |before|, actions[..|actions| - 1], actions[|actions| - 1];
      SameMemory(job, before, front);
      LoopsAreRun(n, front);
      RunKeepsInv(n, front);
      var st, so := Run(n, front), Project(n, front);
      var added := Projected(st, n, a);
      assert so + [] == so;
      if a.Deliver? && Enabled(st, n, a) {
        DeliverRefines(st, n, a.from, a.to);
      }
      if added != [] {
        MemoryStep(job, before, so, added[0]);
      }
    }
  }

  lemma {:induction false} NothingWritten<T>(job: W.Job<T>, before: seq<seq<T>>)
    requires W.ValidJob(job, before)
    ensures W.Memory(job, before, []) == before
  {
  }

  // ---------------------------------------------------------------- the end

  lemma {:induction false} PostedStays(t: Traffic, n: nat, s: nat, yes: bool)
    requires s < n
    ensures t.recv.posted <= Turn(t, n, s, yes).recv.posted && t.send.posted <= Turn(t, n, s, yes).send.posted
  {
    hide Aim, SendSeq, RecvSeq;
  }

  /** Bytes arrive only where both requests were posted. */
  lemma {:induction false} ArrivedPosted(n: nat, actions: seq<Action>, p: nat, q: nat)
    requires p < n && q < n && p in Run(n, actions).got[q]
    ensures var st := Run(n, actions); q in st.ranks[p].send.posted && p in st.ranks[q].recv.posted
    decreases |actions|
  {
    hide Turn, IsComplete, Group;
    if actions != [] {
      var front, a := actions[..|actions| - 1], actions[|actions| - 1];
      var st := Run(n, front);
      if p in st.got[q] {
        ArrivedPosted(n, front, p, q);
      }
      if a.TakeTurn? && Enabled(st, n, a) {
        PostedStays(st.ranks[a.rank], n, Group(a.rank), a.yes);
      }
    }
  }

  /** A rank that has posted for everybody has come to the end of its order. */
  lemma {:induction false} PostedAll(posted: seq<nat>, order: seq<nat>, n: nat)
    requires IsPermutation(order, n) && |order| == n && posted <= order && forall x: nat :: x < n ==> x in posted
    ensures |posted| == n
  {
    if |posted| < |order| {
      NextIsNew(posted, order, n);
    }
  }

  lemma {:induction false} LoopsEnd(n: nat, actions: seq<Action>, r: nat)
    requires r < n && AllArrived(Run(n, actions), n)
    ensures |Run(n, actions).ranks[r].recv.posted| == |Run(n, actions).ranks[r].send.posted| == n
  {
    hide Run, Held, Aim, SendSeq, RecvSeq;
    RunKeepsInv(n, actions);
    var st := Run(n, actions);
    assert Orderly(st.ranks[r], n, Group(r));
    OrdersArePermutations(n, Group(r));
    forall x: nat | x < n
      ensures x in st.ranks[r].send.posted && x in st.ranks[r].recv.posted
    {
      assert x in st.got[r] && r in st.got[x];
      ArrivedPosted(n, actions, r, x);
      ArrivedPosted(n, actions, x, r);
    }
    PostedAll(st.ranks[r].send.posted, SendSeq(n, Group(r)), n);
    PostedAll(st.ranks[r].recv.posted, RecvSeq(n, Group(r)), n);
  }

  /**
   In every run of the loops, when all bytes have arrived every rank has come to the end of its loop,
   and has every rank's bytes for it at the displacement it asked for, its buffer being otherwise as
   it was.
   */
  lemma {:induction false} LoopsDeliver<T>(job: W.Job<T>, before: seq<seq<T>>, actions: seq<Action>, q: nat)
    requires W.ValidJob(job, before) && q < |before| && AllArrived(Run(|before|, actions), |before|)
    ensures var t := Run(|before|, actions).ranks[q]; |t.recv.posted| == |t.send.posted| == |before|
    ensures |Memory(job, before, actions)[q]| == |before[q]| && |job.displs[q]| == |before|
    ensures Gathered(Memory(job, before, actions)[q], before[q], W.BytesFor(job, q), job.displs[q])
    ensures W.HasBytesOfAll(job, q, Memory(job, before, actions)[q])
  {
    hide Run, W.Run, Memory, W.Memory, W.ValidJob, AllArrived, W.AllComplete, Gathered, Project, Windows,
      W.HasBytesOfAll;
    var n := |before|;
    LoopsEnd(n, actions, q);
    LoopsAreRun(n, actions);
    SameArrivals(Run(n, actions), n);
    SameMemory(job, before, actions);
    W.AlltoallvDelivers(job, before, Project(n, actions), q);
  }
}
