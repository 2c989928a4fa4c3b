/** `exchangeByLog2`: the all-to-all of 2^L ranks, one element per pair, by exchanging bits. */
module AllToAll {
  import opened Bits
  import opened IndexTable
  import opened Network
  import opened Buffers
  import opened Layout

  // ---------------------------------------------------------------- swapping low bits

  /** a with its low i bits replaced by those of b. */
  function Mix(a: nat, b: nat, i: nat): nat {
    LowAtMost(a, i);
    a - Low(a, i) + Low(b, i)
  }

  /** What slot x of rank s holds when i bits have been exchanged. */
  ghost function Swapped<T>(data: seq<seq<T>>, L: nat, s: nat, x: nat, i: nat): T
    requires IsMatrix(data, L) && s < Pow2(L) && x < Pow2(L) && i <= L
  {
    MixBound(s, x, i, L);
    MixBound(x, s, i, L);
    assert |data[Mix(s, x, i)]| == Pow2(L);
    data[Mix(s, x, i)][Mix(x, s, i)]
  }

  ghost predicate IsMatrix<T>(data: seq<seq<T>>, L: nat) {
    |data| == Pow2(L) && forall s :: 0 <= s < |data| ==> |data[s]| == Pow2(L)
  }

  lemma {:induction false} MixBound(a: nat, b: nat, i: nat, L: nat)
    requires a < Pow2(L) && b < Pow2(L) && i <= L
    ensures Mix(a, b, i) < Pow2(L)
    decreases i
  {
    if i > 0 {
      MixBound(a / 2, b / 2, i - 1, L - 1);
      assert Mix(a, b, i) == 2 * Mix(a / 2, b / 2, i - 1) + b % 2;
    }
  }

  lemma {:induction false} MixStep(a: nat, b: nat, i: nat)
    ensures Bit(a, i) == Bit(b, i) ==> Mix(a, b, i + 1) == Mix(a, b, i)
    ensures Bit(a, i) != Bit(b, i) ==> Mix(a, b, i + 1) == Mix(Flip(a, i), Flip(b, i), i)
  {
    hide Low, Bit, Flip;
    LowStep(a, i);
    LowStep(b, i);
    FlipValue(a, i);
    FlipLow(a, i, i);
    FlipLow(b, i, i);
    LowAtMost(Flip(a, i), i);
    LowAtMost(a, i);
    LowAtMost(a, i + 1);
  }

  /** Exchanging bit i: rank and slot with different bits swap places across the cube. */
  lemma {:induction false} SwapStep<T>(data: seq<seq<T>>, L: nat, s: nat, x: nat, i: nat)
    requires IsMatrix(data, L) && s < Pow2(L) && x < Pow2(L) && i < L
    ensures Flip(s, i) < Pow2(L) && Flip(x, i) < Pow2(L)
    ensures Swapped(data, L, s, x, i + 1) ==
      if Bit(s, i) == Bit(x, i) then Swapped(data, L, s, x, i) else Swapped(data, L, Flip(s, i), Flip(x, i), i)
  {
    hide Mix, Bit, Flip;
    FlipBound(s, i, L);
    FlipBound(x, i, L);
    MixStep(s, x, i);
    MixStep(x, s, i);
  }

  lemma {:induction false} SwapEnds<T>(data: seq<seq<T>>, L: nat, s: nat, x: nat)
    requires IsMatrix(data, L) && s < Pow2(L) && x < Pow2(L)
    ensures |data[s]| == |data[x]| == Pow2(L)
    ensures Swapped(data, L, s, x, 0) == data[s][x] && Swapped(data, L, s, x, L) == data[x][s]
  {
    hide Pow2, Low;
    WholeLow(s, L);
    WholeLow(x, L);
    NoLow(s);
    NoLow(x);
  }

  lemma {:induction false} NoLow(x: nat)
    ensures Low(x, 0) == 0
  {
  }

  lemma {:induction false} WholeLow(x: nat, L: nat)
    requires x < Pow2(L)
    ensures Low(x, L) == x
    decreases L
  {
    if L > 0 {
      WholeLow(x / 2, L - 1);
    }
  }

  // ---------------------------------------------------------------- segments

  /** The first slot of segment m in round i: `m * 2 * 2^i`. */
  function SegStart(m: nat, i: nat): (j: nat) {
    if i == 0 then 2 * m else 2 * SegStart(m, i - 1)
  }

  lemma {:induction false} SegNext(m: nat, i: nat)
    ensures SegStart(m + 1, i) == SegStart(m, i) + 2 * Pow2(i) && SegStart(0, i) == 0
    decreases i
  {
    if i > 0 {
      SegNext(m, i - 1);
    }
  }

  /** The segments of round i fill the slots exactly. */
  lemma {:induction false} SegEnd(m: nat, i: nat, L: nat)
    requires i < L
    ensures SegStart(m, i) < Pow2(L) <==> m < Pow2(L - 1 - i)
    ensures SegStart(m, i) == Pow2(L) <==> m == Pow2(L - 1 - i)
    ensures m < Pow2(L - 1 - i) ==> SegStart(m, i) + 2 * Pow2(i) <= Pow2(L)
    decreases i
  {
    if i > 0 {
      SegEnd(m, i - 1, L - 1);
    }
  }

  /** In the lower half of a segment bit i is clear, in the upper half it is set. */
  lemma {:induction false} SegBits(m: nat, i: nat, x: nat)
    requires SegStart(m, i) <= x < SegStart(m, i) + 2 * Pow2(i)
    ensures Bit(x, i) <==> SegStart(m, i) + Pow2(i) <= x
    decreases i
  {
    if i > 0 {
      SegBits(m, i - 1, x / 2);
    }
  }

  /** Where rank s sends from, and receives to, in a segment. */
  function Skip(s: nat, m: nat, i: nat): nat {
    if Bit(s, i) then SegStart(m, i) else SegStart(m, i) + Pow2(i)
  }

  // ---------------------------------------------------------------- the rounds

  /** Round number and segment number. */
  datatype Position = Position(i: nat, m: nat)

  function Next(L: nat, p: Position): Position {
    if p.i < L && p.m + 1 == Pow2(L - 1 - p.i) then Position(p.i + 1, 0) else Position(p.i, p.m + 1)
  }

  /** The segment exchanged in the r-th exchange. */
  function At(L: nat, r: nat): Position {
    if r == 0 then Position(0, 0) else Next(L, At(L, r - 1))
  }

  ghost predicate Within(L: nat, p: Position) { if p.i < L then p.m < Pow2(L - 1 - p.i) else p == Position(L, 0) }

  /** The number of exchanges left. */
  ghost function Left(L: nat, p: Position): (n: nat)
    requires Within(L, p)
    ensures n > 0 <==> p.i < L
  {
    if p.i < L then
      PowerUp(L - 1 - p.i);
      Pow2(L - p.i) - 1 - p.m
    else 0
  }

  lemma {:induction false} NextPosition(L: nat, p: Position)
    requires Within(L, p) && p.i < L
    ensures Within(L, Next(L, p)) && Left(L, Next(L, p)) == Left(L, p) - 1
  {
    hide Pow2;
    PowerUp(0);
    PowerUp(L - 1 - p.i);
    if p.i + 1 < L {
      PowerUp(L - 2 - p.i);
    }
  }

  lemma {:induction false} Positions(L: nat, r: nat)
    requires r < Pow2(L)
    ensures Within(L, At(L, r)) && Left(L, At(L, r)) == Pow2(L) - 1 - r
    decreases r
  {
    hide Pow2, Next;
    PowerUp(0);
    if r > 0 {
      Positions(L, r - 1);
      NextPosition(L, At(L, r - 1));
    } else if L > 0 {
      PowerUp(L - 1);
    }
  }

  /** A segment, and whether the working copy is refreshed after it. */
  datatype Seg = Seg(off: nat, len: nat, last: bool)

  /** A rank's `temp` and `recvbuf`. */
  datatype Slots<T> = Slots(temp: seq<T>, recvbuf: seq<T>)

  function SegRound(L: nat, s: nat, p: Position): Round<Seg> {
    var half := Half(Flip(s, p.i), Seg(Skip(s, p.m, p.i), Pow2(p.i), Next(L, p).i != p.i));
    Round(Some(half), Some(half))
  }

  function Script(L: nat, s: nat): (script: seq<Round<Seg>>)
    ensures |script| == Pow2(L) - 1 && forall r :: 0 <= r < |script| ==> script[r] == SegRound(L, s, At(L, r))
  {
    seq(Pow2(L) - 1, r requires 0 <= r => SegRound(L, s, At(L, r)))
  }

  function Unpack<T>(seg: Seg, st: Slots<T>, m: seq<T>): Slots<T> {
    var recvbuf := Write(st.recvbuf, seg.off, m);
    if seg.last then Slots(recvbuf, recvbuf) else Slots(st.temp, recvbuf)
  }

  ghost function ExchangeNet<T>(L: nat): Net<Seg, Slots<T>, seq<T>> {
    Net(seq(Pow2(L), s requires 0 <= s => Script(L, s)), false,
        (seg: Seg, st: Slots<T>) => Read(st.temp, Segment(seg.off, seg.len)),
        (seg: Seg, st: Slots<T>, m: seq<T>) => Unpack(seg, st, m),
        (seg: Seg, m: seq<T>) => |m| == seg.len)
  }

  // ---------------------------------------------------------------- pairing

  lemma {:induction false} RoundOf<T>(L: nat, s: nat, r: nat)
    requires s < Pow2(L)
    ensures |ExchangeNet<T>(L).scripts| == Pow2(L) && |ExchangeNet<T>(L).scripts[s]| == Pow2(L) - 1
    ensures r + 1 < Pow2(L) ==>
      && OutAt(ExchangeNet<T>(L), s, r) == SegRound(L, s, At(L, r)).out
      && InAt(ExchangeNet<T>(L), s, r) == SegRound(L, s, At(L, r)).inc
    ensures r + 1 >= Pow2(L) ==> OutAt(ExchangeNet<T>(L), s, r).None? && InAt(ExchangeNet<T>(L), s, r).None?
  {
    hide SegRound, At;
  }

  lemma {:induction false} ExchangePairs<T>(L: nat)
    ensures Consistent(ExchangeNet<T>(L))
  {
    hide At, Flip, Skip, Next, ExchangeNet;
    var net := ExchangeNet<T>(L);
    RoundOf<T>(L, 0, 0);
    forall s, r: nat | 0 <= s < Pow2(L)
      ensures OutAt(net, s, r).Some? ==> SendMatched(net, s, r)
      ensures InAt(net, s, r).Some? ==> ReceiveMatched(net, s, r)
    {
      RoundOf<T>(L, s, r);
      if r + 1 < Pow2(L) {
        Positions(L, r);
        FlipBound(s, At(L, r).i, L);
        FlipTwice(s, At(L, r).i);
        RoundOf<T>(L, Flip(s, At(L, r).i), r);
      }
    }
  }

  // ---------------------------------------------------------------- the data

  /** A rank's buffers when it is about to exchange segment m of round i. */
  ghost predicate Holds<T>(data: seq<seq<T>>, L: nat, s: nat, p: Position, st: Slots<T>)
    requires IsMatrix(data, L) && s < Pow2(L) && p.i <= L
  {
    && |st.temp| == |st.recvbuf| == Pow2(L)
    && (forall x :: 0 <= x < Pow2(L) ==> st.temp[x] == Swapped(data, L, s, x, p.i))
    && (forall x :: 0 <= x < Pow2(L) ==> st.recvbuf[x] == AfterSegments(data, L, s, x, p))
  }

  ghost function AfterSegments<T>(data: seq<seq<T>>, L: nat, s: nat, x: nat, p: Position): T
    requires IsMatrix(data, L) && s < Pow2(L) && x < Pow2(L) && p.i <= L
  {
    if p.i < L && x < SegStart(p.m, p.i) then Swapped(data, L, s, x, p.i + 1) else Swapped(data, L, s, x, p.i)
  }

  lemma {:induction false} SegmentFits(L: nat, s: nat, p: Position)
    requires Within(L, p) && p.i < L
    ensures Skip(s, p.m, p.i) + Pow2(p.i) <= Pow2(L) && SegStart(p.m, p.i) + 2 * Pow2(p.i) <= Pow2(L)
  {
    SegEnd(p.m, p.i, L);
  }

  /** The element that arrives for slot x is the partner's slot across the bit. */
  lemma {:induction false} ArrivesFor(s: nat, p: Position, x: nat)
    requires Skip(s, p.m, p.i) <= x < Skip(s, p.m, p.i) + Pow2(p.i)
    ensures Bit(x, p.i) != Bit(s, p.i)
    ensures Skip(Flip(s, p.i), p.m, p.i) + (x - Skip(s, p.m, p.i)) == Flip(x, p.i)
  {
    hide Bit, Flip, SegStart, Pow2;
    SegBits(p.m, p.i, x);
    FlipValue(x, p.i);
    FlipBit(s, p.i, p.i);
  }

  lemma {:induction false} StaysFor(s: nat, p: Position, x: nat)
    requires SegStart(p.m, p.i) <= x < SegStart(p.m, p.i) + 2 * Pow2(p.i)
    requires !(Skip(s, p.m, p.i) <= x < Skip(s, p.m, p.i) + Pow2(p.i))
    ensures Bit(x, p.i) == Bit(s, p.i)
  {
    hide Bit, SegStart, Pow2;
    SegBits(p.m, p.i, x);
  }

  /** One slot after one exchange. */
  lemma {:induction false} SegmentMoves<T>(buf: seq<T>, to: nat, temp: seq<T>, from: nat, count: nat, x: nat)
    requires to + count <= |buf| && from + count <= |temp| && x < |buf|
    ensures var m := Read(temp, Segment(from, count));
      |m| == count && Write(buf, to, m)[x] == if to <= x < to + count then temp[from + (x - to)] else buf[x]
  {
  }

  lemma {:induction false} SlotAfter<T>(data: seq<seq<T>>, L: nat, s: nat, p: Position, st: Slots<T>,
                                        other: Slots<T>, x: nat)
    requires IsMatrix(data, L) && s < Pow2(L) && Within(L, p) && p.i < L && Flip(s, p.i) < Pow2(L) && x < Pow2(L)
    requires Holds(data, L, s, p, st) && Holds(data, L, Flip(s, p.i), p, other)
    requires Skip(s, p.m, p.i) + Pow2(p.i) <= Pow2(L) && Skip(Flip(s, p.i), p.m, p.i) + Pow2(p.i) <= Pow2(L)
    ensures var m := Read(other.temp, Segment(Skip(Flip(s, p.i), p.m, p.i), Pow2(p.i)));
      |m| == Pow2(p.i) && Write(st.recvbuf, Skip(s, p.m, p.i), m)[x] ==
        if x < SegStart(p.m, p.i) + 2 * Pow2(p.i) then Swapped(data, L, s, x, p.i + 1) else Swapped(data, L, s, x, p.i)
  {
    hide Bit, Flip, SegStart, Pow2, Swapped, Within, Read, Write;
    var q, skip, count := Flip(s, p.i), Skip(s, p.m, p.i), Pow2(p.i);
    var m := Read(other.temp, Segment(Skip(q, p.m, p.i), count));
    SegmentMoves(st.recvbuf, skip, other.temp, Skip(q, p.m, p.i), count, x);
    assert st.recvbuf[x] == AfterSegments(data, L, s, x, p);
    if skip <= x < skip + count {
      ArrivesFor(s, p, x);
      SwapStep(data, L, s, x, p.i);
      assert Flip(x, p.i) < |other.temp|;
    } else if SegStart(p.m, p.i) <= x < SegStart(p.m, p.i) + 2 * count {
      StaysFor(s, p, x);
      SwapStep(data, L, s, x, p.i);
    }
  }

  /** One exchange takes the buffers to the next position. */
  lemma {:induction false} ExchangeStep<T>(data: seq<seq<T>>, L: nat, s: nat, p: Position, st: Slots<T>,
                                           other: Slots<T>)
    requires IsMatrix(data, L) && s < Pow2(L) && Within(L, p) && p.i < L && Flip(s, p.i) < Pow2(L)
    requires Holds(data, L, s, p, st) && Holds(data, L, Flip(s, p.i), p, other)
    ensures Next(L, p).i <= L
    ensures var m := Read(other.temp, Segment(Skip(Flip(s, p.i), p.m, p.i), Pow2(p.i)));
      && |m| == Pow2(p.i)
      && Holds(data, L, s, Next(L, p), Unpack(Seg(Skip(s, p.m, p.i), Pow2(p.i), Next(L, p).i != p.i), st, m))
  {
    hide Bit, Flip, SegStart, Pow2, Swapped, Skip, Write;
    SegmentFits(L, s, p);
    SegmentFits(L, Flip(s, p.i), p);
    SegNext(p.m, p.i);
    SegEnd(p.m + 1, p.i, L);
    SegNext(0, p.i + 1);
    var m := Read(other.temp, Segment(Skip(Flip(s, p.i), p.m, p.i), Pow2(p.i)));
    var after := Write(st.recvbuf, Skip(s, p.m, p.i), m);
    forall x | 0 <= x < Pow2(L)
      ensures after[x] ==
        if x < SegStart(p.m, p.i) + 2 * Pow2(p.i) then Swapped(data, L, s, x, p.i + 1) else Swapped(data, L, s, x, p.i)
    {
      SlotAfter(data, L, s, p, st, other, x);
    }
  }

  ghost predicate AllHold<T>(data: seq<seq<T>>, L: nat, p: Position, local: seq<Slots<T>>)
    requires IsMatrix(data, L) && p.i <= L
  {
    |local| == Pow2(L) &&
    forall s {:trigger Holds(data, L, s, p, local[s])} :: 0 <= s < Pow2(L) ==> Holds(data, L, s, p, local[s])
  }

  lemma {:induction false} RoundHolds<T>(data: seq<seq<T>>, L: nat, init: seq<Slots<T>>, t: seq<seq<Slots<T>>>,
                                         r: nat, s: nat)
    requires IsMatrix(data, L) && |init| == |ExchangeNet<T>(L).scripts| && Consistent(ExchangeNet<T>(L))
    requires IsTrace(ExchangeNet(L), init, t)
    requires r + 1 < |t| && r + 1 < Pow2(L) && s < Pow2(L) && At(L, r).i <= L && AllHold(data, L, At(L, r), t[r])
    ensures At(L, r + 1).i <= L && Holds(data, L, s, At(L, r + 1), t[r + 1][s])
    ensures InAt(ExchangeNet<T>(L), s, r).Some? ==> AcceptsIn(ExchangeNet(L), t, s, r)
  {
    hide Holds, Skip, Flip, Read, Unpack, Next, Pow2;
    var p := At(L, r);
    Positions(L, r);
    RoundOf<T>(L, s, r);
    FlipBound(s, p.i, L);
    FlipTwice(s, p.i);
    var q := Flip(s, p.i);
    RoundOf<T>(L, q, r);
    TraceNext(ExchangeNet(L), init, t, r, s);
    assert Holds(data, L, s, p, t[r][s]) && Holds(data, L, q, p, t[r][q]);
    ExchangeStep(data, L, s, p, t[r][s], t[r][q]);
  }

  lemma {:induction false} TraceHolds<T>(data: seq<seq<T>>, L: nat, init: seq<Slots<T>>, t: seq<seq<Slots<T>>>, r: nat)
    requires IsMatrix(data, L) && |init| == |ExchangeNet<T>(L).scripts| && Consistent(ExchangeNet<T>(L))
    requires IsTrace(ExchangeNet(L), init, t)
    requires r < |t| && r < Pow2(L) && AllHold(data, L, Position(0, 0), init)
    ensures At(L, r).i <= L && AllHold(data, L, At(L, r), t[r])
    decreases r
  {
    hide Holds, IsTrace, ExchangeNet, Pow2;
    if r == 0 {
      TraceStart(ExchangeNet(L), init, t);
    } else {
      TraceHolds(data, L, init, t, r - 1);
      TraceShape(ExchangeNet(L), init, t, r);
      RoundHolds(data, L, init, t, r - 1, 0);
      forall s | 0 <= s < Pow2(L)
        ensures Holds(data, L, s, At(L, r), t[r][s])
      {
        RoundHolds(data, L, init, t, r - 1, s);
      }
    }
  }

  /** Both buffers start as copies of the send buffer. */
  function Loaded<T>(data: seq<seq<T>>): (init: seq<Slots<T>>)
    ensures |init| == |data| && forall s :: 0 <= s < |data| ==> init[s] == Slots(data[s], data[s])
  {
    seq(|data|, s requires 0 <= s < |data| => Slots(data[s], data[s]))
  }

  lemma {:induction false} StartHolds<T>(data: seq<seq<T>>, L: nat)
    requires IsMatrix(data, L)
    ensures AllHold(data, L, Position(0, 0), Loaded(data))
  {
    hide Swapped;
    forall s | 0 <= s < Pow2(L)
      ensures Holds(data, L, s, Position(0, 0), Loaded(data)[s])
    {
      assert |data[s]| == Pow2(L);
      forall x | 0 <= x < Pow2(L)
        ensures data[s][x] == Swapped(data, L, s, x, 0)
      {
        SwapEnds(data, L, s, x);
      }
    }
  }

  lemma {:induction false} Lengths<T>(L: nat)
    ensures |ExchangeNet<T>(L).scripts| == Pow2(L) && MaxLength(ExchangeNet<T>(L).scripts) == Pow2(L) - 1
  {
    hide Script, ExchangeNet;
    var scripts := ExchangeNet<T>(L).scripts;
    RoundOf<T>(L, 0, 0);
    forall s | 0 <= s < |scripts|
      ensures |scripts[s]| == Pow2(L) - 1
    {
      RoundOf<T>(L, s, 0);
    }
    ScriptLengths(scripts, Pow2(L) - 1);
  }

  lemma {:induction false} LengthsAgree<T>(data: seq<seq<T>>, L: nat)
    requires IsMatrix(data, L) && |data| == |ExchangeNet<T>(L).scripts| && Consistent(ExchangeNet<T>(L))
    ensures Accepting(ExchangeNet(L), Loaded(data))
  {
    hide Holds, IsTrace, ExchangeNet, Pow2, AcceptsIn;
    var net, init := ExchangeNet<T>(L), Loaded(data);
    Lengths<T>(L);
    StartHolds(data, L);
    var t := Trace(net, init);
    forall s, r: nat | 0 <= s < Pow2(L) && r < MaxLength(net.scripts) && InAt(net, s, r).Some?
      ensures AcceptsIn(net, t, s, r)
    {
      TraceHolds(data, L, init, t, r);
      RoundHolds(data, L, init, t, r, s);
    }
    AcceptingFromTrace(net, init);
  }

  lemma {:induction false} FinalState<T>(data: seq<seq<T>>, L: nat, sched: seq<nat>, s: nat, x: nat)
    requires IsMatrix(data, L) && |data| == |ExchangeNet<T>(L).scripts| && Consistent(ExchangeNet<T>(L))
    requires s < Pow2(L) && x < Pow2(L)
    ensures var net := ExchangeNet<T>(L);
      var c := Exec(net, Start(net, Loaded(data)), sched);
      Done(net, c) ==> |c.local[s].recvbuf| == |data[x]| == Pow2(L) && c.local[s].recvbuf[x] == data[x][s]
  {
    hide ExchangeNet, Pow2, Swapped, Done, IsTrace, Loaded;
    var net, init := ExchangeNet<T>(L), Loaded(data);
    var c := Exec(net, Start(net, init), sched);
    if Done(net, c) {
      EveryRunAgrees(net, init, sched);
      Lengths<T>(L);
      StartHolds(data, L);
      var t, end := Trace(net, init), Pow2(L) - 1;
      TraceHolds(data, L, init, t, end);
      Positions(L, end);
      assert Holds(data, L, s, At(L, end), t[end][s]);
      SwapEnds(data, L, s, x);
      assert t[end][s].recvbuf[x] == AfterSegments(data, L, s, x, At(L, end));
    }
  }

  lemma {:induction false} RunsOnward<T>(L: nat, init: seq<Slots<T>>, sched: seq<nat>)
    requires |init| == |ExchangeNet<T>(L).scripts| && Consistent(ExchangeNet<T>(L)) && Accepting(ExchangeNet(L), init)
    ensures var c := Exec(ExchangeNet(L), Start(ExchangeNet(L), init), sched);
      Done(ExchangeNet(L), c) || exists p :: CanMove(ExchangeNet(L), c, p, true)
  {
    hide Done, CanMove, Script;
    var c := Exec(ExchangeNet(L), Start(ExchangeNet(L), init), sched);
    if !Done(ExchangeNet(L), c) {
      var p := NeverStuck(ExchangeNet(L), init, seq(|init|, i => 0), sched);
    }
  }

  /**
   Whatever the interleaving, when the exchange is over slot x of rank s holds what rank x had
   for rank s; until then some rank can go on, even with synchronous sends.
   */
  lemma {:induction false} ExchangeTransposes<T>(data: seq<seq<T>>, L: nat, sched: seq<nat>)
    requires IsMatrix(data, L)
    ensures Consistent(ExchangeNet<T>(L)) && |data| == |ExchangeNet<T>(L).scripts|
    ensures var net := ExchangeNet<T>(L);
      var c := Exec(net, Start(net, Loaded(data)), sched);
      if Done(net, c)
      then forall s, x :: 0 <= s < Pow2(L) && 0 <= x < Pow2(L) ==>
        |c.local[s].recvbuf| == |data[x]| == Pow2(L) && c.local[s].recvbuf[x] == data[x][s]
      else exists p :: CanMove(net, c, p, true)
  {
    hide ExchangeNet, Pow2, Done, CanMove, Accepting, Loaded;
    ExchangePairs<T>(L);
    Lengths<T>(L);
    LengthsAgree(data, L);
    RunsOnward(L, Loaded(data), sched);
    var c := Exec(ExchangeNet<T>(L), Start(ExchangeNet<T>(L), Loaded(data)), sched);
    if Done(ExchangeNet<T>(L), c) {
      forall s, x | 0 <= s < Pow2(L) && 0 <= x < Pow2(L)
        ensures |c.local[s].recvbuf| == |data[x]| == Pow2(L) && c.local[s].recvbuf[x] == data[x][s]
      {
        FinalState(data, L, sched, s, x);
      }
    }
  }

  // ---------------------------------------------------------------- exchangeByLog2

  /** `skip`: where this rank's half of the segment at j begins. */
  method SegmentOffset(self: nat, j: nat, count: nat, ghost m: nat, ghost i: nat) returns (skip: nat)
    requires count == Pow2(i) && j == SegStart(m, i)
    ensures skip == Skip(self, m, i)
  {
    ModuloBit(self, i);
    if count == 1 {
      if self % 2 == 0 {
        skip := j + 1;
      } else {
        skip := j;
      }
    } else {
      var flip := self % (count * 2);
      if flip < count {
        skip := j + count;
      } else {
        skip := j;
      }
    }
  }

  lemma {:induction false} AfterSegment(L: nat, r: nat, i: nat, m: nat)
    requires i < L && m < Pow2(L - 1 - i) && At(L, r) == Position(i, m)
    ensures SegStart(m + 1, i) == SegStart(m, i) + 2 * Pow2(i) <= Pow2(L)
    ensures SegStart(m + 1, i) == Pow2(L) <==> m + 1 == Pow2(L - 1 - i)
    ensures At(L, r + 1) == if SegStart(m + 1, i) == Pow2(L) then Position(i + 1, 0) else Position(i, m + 1)
  {
    hide Pow2, SegStart;
    SegNext(m, i);
    SegEnd(m, i, L);
    SegEnd(m + 1, i, L);
  }

  lemma {:induction false} FirstSegment(i: nat, L: nat)
    requires i < L
    ensures SegStart(0, i) == 0 < Pow2(L - 1 - i)
  {
    SegNext(0, i);
  }

  /** The exchanges that `exchangeByLog2` makes, in order. */
  method ExchangeByLog2(commSize: nat, self: nat, log2: nat, dest: array2<nat>, elements: array2<nat>)
    returns (ops: seq<Round<Seg>>)
    requires commSize == Pow2(log2) && self < commSize
    requires dest.Length0 == elements.Length0 == commSize && dest.Length1 == elements.Length1 == log2
    requires forall j, i :: 0 <= j < commSize && 0 <= i < log2 ==>
      dest[j, i] == Xor(j, Pow2(i)) && elements[j, i] == Pow2(i)
    ensures ops == Script(log2, self)
  {
    hide Pow2, SegStart, Skip, Flip, Xor, At, Next;
    ops := [];
    AtStart(log2);
    for i := 0 to log2
      invariant At(log2, |ops|) == Position(i, 0)
      invariant forall r :: 0 <= r < |ops| ==> ops[r] == SegRound(log2, self, At(log2, r))
    {
      var j := 0;
      ghost var m := 0;
      FirstSegment(i, log2);
      XorPow2IsFlip(self, i);
      while j < commSize
        invariant j == SegStart(m, i) <= Pow2(log2)
        invariant j < Pow2(log2) ==> m < Pow2(log2 - 1 - i)
        invariant At(log2, |ops|) == if j < Pow2(log2) then Position(i, m) else Position(i + 1, 0)
        invariant forall r :: 0 <= r < |ops| ==> ops[r] == SegRound(log2, self, At(log2, r))
        decreases commSize - j
      {
        var destProc, count := dest[self, i], elements[self, i];
        var skip := SegmentOffset(self, j, count, m, i);
        AfterSegment(log2, |ops|, i, m);
        NextRound(log2, |ops|);
        SegEnd(m + 1, i, log2);
        j := j + 2 * count;
        var seg := Half(destProc, Seg(skip, count, j >= commSize));
        ops := ops + [Round(Some(seg), Some(seg))];
        m := m + 1;
      }
    }
    PlanLength(log2, |ops|);
  }

  lemma {:induction false} AtStart(L: nat)
    ensures At(L, 0) == Position(0, 0)
  {
  }

  lemma {:induction false} NextRound(L: nat, r: nat)
    ensures At(L, r + 1) == Next(L, At(L, r))
  {
  }

  /** The rounds are over after exactly 2^L - 1 exchanges. */
  lemma {:induction false} PlanLength(L: nat, r: nat)
    requires At(L, r) == Position(L, 0)
    ensures r == Pow2(L) - 1
  {
    hide At, Next;
    if r < Pow2(L) {
      Positions(L, r);
    } else {
      PastEnd(L, r);
    }
  }

  lemma {:induction false} PastEnd(L: nat, r: nat)
    requires r >= Pow2(L)
    ensures At(L, r) != Position(L, 0) && At(L, r).i == L
    decreases r
  {
    hide Pow2;
    if r == Pow2(L) {
      Positions(L, r - 1);
    } else {
      PastEnd(L, r - 1);
    }
  }
}
