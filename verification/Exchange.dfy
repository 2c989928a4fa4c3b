/**
 The interhost data exchange of the all-gather operations: the exchange lists and the
 data order set up with the communicator, and `exchangeStripeOfData`.
 */
module Exchange {
  import opened Arith
  import opened Bits
  import opened Layout
  import opened Network
  import opened Hypercube

  // ---------------------------------------------------------------- communicator set-up

  /** The exchange partners of the hosts in the hypercube, dimension by dimension. */
  ghost predicate AreExchangeLists(lists: seq<seq<nat>>, n: nat)
    requires n >= 1
  {
    && |lists| == Pow2(Levels(n))
    && (forall h :: 0 <= h < |lists| ==> IsExchangeList(lists[h], h, Levels(n)))
  }

  ghost predicate IsExchangeList(list: seq<nat>, h: nat, m: nat) {
    |list| == m && forall l :: 0 <= l < m ==> list[l] == Flip(h, l)
  }

  /** The test for the upper half of a group of `2 * stride` hosts is a test of one bit. */
  lemma {:induction false} UpperHalf(node: nat, l: nat)
    ensures var stride := Pow2(l);
      node - node / (2 * stride) * 2 * stride - stride >= 0 <==> Bit(node, l)
  {
    hide High, Low, Bit;
    Split(node, l + 1);
    var q, stride := High(node, l + 1), Pow2(l);
    DivisionIs(node, 2 * stride, q, Low(node, l + 1));
    Regroup(q, stride);
    LowStep(node, l);
    Split(node, l);
  }

  lemma {:induction false} Regroup(q: nat, stride: nat)
    ensures q * 2 * stride == q * (2 * stride)
  {
  }

  method ExchangeListOf(node: nat, depth: nat) returns (list: seq<nat>)
    requires depth >= 1
    ensures IsExchangeList(list, node, depth - 1)
  {
    list := [];
    var stride := 1;
    for level := 1 to depth
      invariant stride == Pow2(level - 1) && |list| == level - 1
      invariant forall l :: 0 <= l < level - 1 ==> list[l] == Flip(node, l)
    {
      UpperHalf(node, level - 1);
      FlipValue(node, level - 1);
      var upper := node / (2 * stride);
      upper := node - upper * 2 * stride;
      upper := upper - stride;
      var exchangePartner := if upper >= 0 then node - stride else node + stride;
      list := list + [exchangePartner];
      stride := stride * 2;
    }
  }

  method SetupSendRecvTree(nNodes: nat)
    returns (exchangeList: seq<seq<nat>>, nExtra: nat, extraOffset: nat, treeDepth: nat)
    requires nNodes >= 1
    ensures AreExchangeLists(exchangeList, nNodes)
    ensures extraOffset == Pow2(Levels(nNodes)) && nExtra == nNodes - extraOffset
    ensures treeDepth == Levels(nNodes) + 1
  {
    var nMax := nNodes;
    var depth := 0;
    while nMax > 0
      invariant if nMax > 0 then Levels(nMax) + depth == Levels(nNodes) else depth == Levels(nNodes) + 1
    {
      nMax := nMax / 2;
      depth := depth + 1;
    }
    var nTreeNodes := 1;
    for level := 1 to depth
      invariant nTreeNodes == Pow2(level - 1)
    {
      nTreeNodes := nTreeNodes * 2;
    }
    nExtra, extraOffset, treeDepth := nNodes - nTreeNodes, nTreeNodes, depth;
    exchangeList := [];
    for node := 0 to nTreeNodes
      invariant |exchangeList| == node
      invariant forall h :: 0 <= h < node ==> IsExchangeList(exchangeList[h], h, Levels(nNodes))
    {
      var list := ExchangeListOf(node, depth);
      exchangeList := exchangeList + [list];
    }
  }

  lemma {:induction false} OrderGrows(h: nat, a: nat, b: nat, n: nat)
    requires n >= 1 && a <= b
    ensures Order(h, a, n) <= Order(h, b, n)
    decreases b
  {
    if a < b {
      OrderGrows(h, a, b - 1, n);
    }
  }

  method AddWithExtra(list: array<nat>, cnt0: nat, callingRank: nat, nExtra: nat, extraOffset: nat, ghost n: nat)
    returns (cnt: nat)
    requires n >= 1 && extraOffset == Pow2(Levels(n)) && nExtra == n - extraOffset
    requires cnt0 + |Order(callingRank, 0, n)| <= list.Length
    modifies list
    ensures cnt == cnt0 + |Order(callingRank, 0, n)|
    ensures list[..cnt] == old(list[..cnt0]) + Order(callingRank, 0, n)
  {
    cnt := cnt0;
    list[cnt] := callingRank;
    cnt := cnt + 1;
    if nExtra > 0 && callingRank < nExtra {
      list[cnt] := callingRank + extraOffset;
      cnt := cnt + 1;
    }
  }

  /**
   The recursive walk that fills in the order in which a host finds the hosts' data in its
   buffer.  It yields exactly the order in which the exchange lays the data out.
   */
  method GetSendingHostRank(sources: seq<seq<nat>>, list: array<nat>, cnt0: nat, currentLevel: nat,
                            callingRank: nat, nExtra: nat, extraOffset: nat, ghost n: nat)
    returns (cnt: nat)
    requires n >= 1 && AreExchangeLists(sources, n)
    requires extraOffset == Pow2(Levels(n)) && nExtra == n - extraOffset
    requires callingRank < extraOffset && 1 <= currentLevel <= Levels(n) + 1
    requires cnt0 + |Order(callingRank, currentLevel - 1, n)| <= list.Length
    modifies list
    ensures cnt == cnt0 + |Order(callingRank, currentLevel - 1, n)|
    ensures list[..cnt] == old(list[..cnt0]) + Order(callingRank, currentLevel - 1, n)
    decreases currentLevel
  {
    hide Order, Levels, AreExchangeLists, Flip;
    OrderGrows(callingRank, 0, currentLevel - 1, n);
    cnt := AddWithExtra(list, cnt0, callingRank, nExtra, extraOffset, n);
    var nSendToNow := currentLevel - 1;
    for i := 0 to nSendToNow
      invariant cnt <= list.Length
      invariant cnt == cnt0 + |Order(callingRank, i, n)|
      invariant list[..cnt] == old(list[..cnt0]) + Order(callingRank, i, n)
    {
      PartnerOf(sources, callingRank, i, n);
      OrderDoubles(callingRank, i, n);
      OrderGrows(callingRank, i + 1, currentLevel - 1, n);
      ghost var before := list[..cnt];
      cnt := GetSendingHostRank(sources, list, cnt, i + 1, sources[callingRank][i], nExtra, extraOffset, n);
      assert list[..cnt] == before + Order(Flip(callingRank, i), i, n);
    }
  }

  lemma {:induction false} OrderDoubles(h: nat, l: nat, n: nat)
    requires n >= 1
    ensures Order(h, l + 1, n) == Order(h, l, n) + Order(Flip(h, l), l, n)
  {
  }

  lemma {:induction false} PartnerOf(lists: seq<seq<nat>>, h: nat, l: nat, n: nat)
    requires n >= 1 && AreExchangeLists(lists, n) && h < Pow2(Levels(n)) && l < Levels(n)
    ensures h < |lists| && l < |lists[h]| && lists[h][l] == Flip(h, l) < Pow2(Levels(n))
  {
    assert IsExchangeList(lists[h], h, Levels(n));
    FlipBound(h, l, Levels(n));
  }

  // ---------------------------------------------------------------- one host's part

  /** How many bytes host h has collected before round r. */
  ghost function HeldBytes(sizes: seq<nat>, h: nat, r: nat, n: nat): nat
    requires h < n == |sizes|
  {
    HeldInRange(h, r, n);
    Bytes(sizes, Held(h, r, n))
  }

  /** Empty messages are neither sent nor received. */
  function SendHalf(dest: nat, len: nat): Option<Half<Segment>> {
    if len > 0 then Some(Half(dest, Segment(0, len))) else None
  }

  function RecvHalf(src: nat, off: nat, len: nat): Option<Half<Segment>> {
    if len > 0 then Some(Half(src, Segment(off, len))) else None
  }

  ghost function ExchangeRound(p: nat, r: nat, sizes: seq<nat>, n: nat): Round<Segment>
    requires p < n == |sizes|
  {
    PeersPair(p, r, n);
    Round(
      match PeerOut(p, r, n)
      case Some(q) => SendHalf(q, HeldBytes(sizes, p, r, n))
      case None => None,
      match PeerIn(p, r, n)
      case Some(q) =>
        RecvHalf(q, if r <= Levels(n) then HeldBytes(sizes, p, r, n) else 0, HeldBytes(sizes, q, r, n))
      case None => None)
  }

  ghost predicate RoundIs(round: Round<Segment>, p: nat, r: nat, sizes: seq<nat>, n: nat)
    requires p < n == |sizes|
  {
    round == ExchangeRound(p, r, sizes, n)
  }

  ghost predicate IsScript(script: seq<Round<Segment>>, p: nat, sizes: seq<nat>, n: nat)
    requires p < n == |sizes|
  {
    && |script| == Levels(n) + 2
    && forall r: nat {:trigger RoundIs(RoundAt(script, r), p, r, sizes, n)} ::
         RoundIs(RoundAt(script, r), p, r, sizes, n)
  }

  /** The rounds emitted so far are the first rounds of the script. */
  ghost predicate IsBegun(script: seq<Round<Segment>>, p: nat, sizes: seq<nat>, n: nat)
    requires p < n == |sizes|
  {
    forall r {:trigger RoundIs(script[r], p, r, sizes, n)} ::
      0 <= r < |script| ==> RoundIs(script[r], p, r, sizes, n)
  }

  lemma {:induction false} Extend(script: seq<Round<Segment>>, round: Round<Segment>, p: nat, sizes: seq<nat>, n: nat)
    requires p < n == |sizes| && IsBegun(script, p, sizes, n)
    requires RoundIs(round, p, |script|, sizes, n)
    ensures IsBegun(script + [round], p, sizes, n)
  {
    hide RoundIs;
    var longer := script + [round];
    forall r | 0 <= r < |longer|
      ensures RoundIs(longer[r], p, r, sizes, n)
    {
      if r < |script| {
        assert RoundIs(script[r], p, r, sizes, n);
      }
    }
  }

  lemma {:induction false} Complete(script: seq<Round<Segment>>, p: nat, sizes: seq<nat>, n: nat)
    requires p < n == |sizes| && IsBegun(script, p, sizes, n) && |script| == Levels(n) + 2
    ensures IsScript(script, p, sizes, n)
  {
    forall r: nat
      ensures RoundIs(RoundAt(script, r), p, r, sizes, n)
    {
      if r < |script| {
        assert RoundIs(script[r], p, r, sizes, n);
      }
    }
  }

  /** Adds to each host's count what its partner at this level brings. */
  method CountLevel(lists: seq<seq<nat>>, level: nat, extraOffset: nat, dataToSendNow: array<nat>,
                    dataToRecvNow: array<nat>)
    requires extraOffset <= dataToSendNow.Length && extraOffset <= dataToRecvNow.Length
    requires dataToSendNow != dataToRecvNow
    requires |lists| == extraOffset
    requires forall h :: 0 <= h < extraOffset ==> level < |lists[h]| && lists[h][level] < extraOffset
    modifies dataToSendNow, dataToRecvNow
    ensures forall h :: 0 <= h < extraOffset ==>
      dataToSendNow[h] == old(dataToSendNow[h]) + old(dataToSendNow[lists[h][level]])
    ensures forall h :: extraOffset <= h < dataToSendNow.Length ==> dataToSendNow[h] == old(dataToSendNow[h])
  {
    for host := 0 to extraOffset
      invariant forall h :: 0 <= h < host ==> dataToRecvNow[h] == old(dataToSendNow[h])
      invariant dataToSendNow[..] == old(dataToSendNow[..])
    {
      dataToRecvNow[host] := dataToSendNow[host];
    }
    for host := 0 to extraOffset
      invariant forall h :: 0 <= h < extraOffset ==> dataToRecvNow[h] == old(dataToSendNow[h])
      invariant forall h :: 0 <= h < host ==>
        dataToSendNow[h] == old(dataToSendNow[h]) + old(dataToSendNow[lists[h][level]])
      invariant forall h :: host <= h < dataToSendNow.Length ==> dataToSendNow[h] == old(dataToSendNow[h])
    {
      var srcHost := lists[host][level];
      dataToSendNow[host] := dataToSendNow[host] + dataToRecvNow[srcHost];
    }
  }

  method SumAll(dataToSendNow: array<nat>) returns (total: nat)
    ensures total == Bytes(dataToSendNow[..], Ascending(dataToSendNow.Length))
  {
    total := 0;
    for host := 0 to dataToSendNow.Length
      invariant total == Bytes(dataToSendNow[..], Ascending(host))
    {
      assert Ascending(host + 1)[..host] == Ascending(host);
      total := total + dataToSendNow[host];
    }
  }

  lemma {:induction false} HeldBytesStep(sizes: seq<nat>, h: nat, r: nat, n: nat)
    requires h < n == |sizes|
    ensures HeldBytes(sizes, h, 0, n) == sizes[h]
    ensures PeerIn(h, r, n).None? ==> HeldBytes(sizes, h, r + 1, n) == HeldBytes(sizes, h, r, n)
    ensures PeerIn(h, r, n).Some? && r <= Levels(n) ==>
      var q := PeerIn(h, r, n).value;
      q < n && HeldBytes(sizes, h, r + 1, n) == HeldBytes(sizes, h, r, n) + HeldBytes(sizes, q, r, n)
  {
    assert Bytes(sizes, [h]) == sizes[h];
    HeldStep(h, r, n);
    if PeerIn(h, r, n).Some? && r <= Levels(n) {
      var q := PeerIn(h, r, n).value;
      HeldInRange(h, r, n);
      HeldInRange(q, r, n);
      BytesConcat(sizes, Held(h, r, n), Held(q, r, n));
    }
  }

  /** When all dimensions are done a low host holds the data of every host. */
  lemma {:induction false} FullCount(sizes: seq<nat>, h: nat, n: nat)
    requires h < n == |sizes| && h < Pow2(Levels(n))
    ensures HeldBytes(sizes, h, Levels(n) + 1, n) == Bytes(sizes, Ascending(n))
  {
    FullOrderIsPermutation(h, n);
    BytesOfPermutation(sizes, Order(h, Levels(n), n), n);
  }

  /** The counts kept in `dataToSendNow` are the byte lengths of what the low hosts hold. */
  ghost predicate Counted(counts: seq<nat>, sizes: seq<nat>, r: nat, n: nat)
    requires n >= 1 && |counts| == |sizes| == n
  {
    forall h :: 0 <= h < Pow2(Levels(n)) ==> counts[h] == HeldBytes(sizes, h, r, n)
  }

  method AddExtraCounts(dataToSendNow: array<nat>, nExtra: nat, extraOffset: nat)
    requires nExtra <= extraOffset && extraOffset + nExtra == dataToSendNow.Length
    modifies dataToSendNow
    ensures forall h :: 0 <= h < nExtra ==>
      dataToSendNow[h] == old(dataToSendNow[h]) + old(dataToSendNow[h + extraOffset])
    ensures forall h :: nExtra <= h < dataToSendNow.Length ==> dataToSendNow[h] == old(dataToSendNow[h])
  {
    for host := 0 to nExtra
      invariant forall h :: 0 <= h < host ==>
        dataToSendNow[h] == old(dataToSendNow[h]) + old(dataToSendNow[h + extraOffset])
      invariant forall h :: host <= h < dataToSendNow.Length ==> dataToSendNow[h] == old(dataToSendNow[h])
    {
      dataToSendNow[host] := dataToSendNow[host] + dataToSendNow[host + extraOffset];
    }
  }

  /** The hand-over of the extra hosts, and the counts after it. */
  method SetupPhase(me: nat, dataToSendNow: array<nat>, nExtra: nat, extraOffset: nat)
    returns (round: Round<Segment>, lastSendRecv: nat)
    requires me < dataToSendNow.Length
    requires extraOffset == Pow2(Levels(dataToSendNow.Length)) && nExtra == dataToSendNow.Length - extraOffset
    modifies dataToSendNow
    ensures var n, sizes := dataToSendNow.Length, old(dataToSendNow[..]);
      && RoundIs(round, me, 0, sizes, n)
      && Counted(dataToSendNow[..], sizes, 1, n)
      && (nExtra > 0 ==> lastSendRecv == Bytes(sizes, Ascending(n)))
  {
    hide RoundIs, Counted, Bytes;
    ghost var sizes := dataToSendNow[..];
    round := Idle();
    lastSendRecv := 0;
    SetupRound(me, sizes, nExtra, extraOffset);
    if nExtra > 0 {
      lastSendRecv := SumAll(dataToSendNow);
      if me < nExtra {
        var srcHost := me + extraOffset;
        round := Round(None, RecvHalf(srcHost, dataToSendNow[me], dataToSendNow[srcHost]));
      } else if me >= extraOffset {
        var destHost := me - extraOffset;
        round := Round(SendHalf(destHost, dataToSendNow[me]), None);
      }
      AddExtraCounts(dataToSendNow, nExtra, extraOffset);
    }
    CountsAfterSetup(dataToSendNow[..], sizes, nExtra, extraOffset);
  }

  lemma {:induction false} LevelRound(me: nat, level: nat, own: nat, other: nat, sizes: seq<nat>)
    requires me < |sizes| && me < Pow2(Levels(|sizes|)) && level < Levels(|sizes|)
    requires Flip(me, level) < |sizes|
    requires own == HeldBytes(sizes, me, level + 1, |sizes|)
    requires other == HeldBytes(sizes, Flip(me, level), level + 1, |sizes|)
    ensures var q := Flip(me, level);
      RoundIs(Round(SendHalf(q, own), RecvHalf(q, own, other)), me, level + 1, sizes, |sizes|)
  {
    hide HeldBytes;
  }

  lemma {:induction false} SetupRound(me: nat, sizes: seq<nat>, nExtra: nat, extraOffset: nat)
    requires me < |sizes| && extraOffset == Pow2(Levels(|sizes|)) && nExtra == |sizes| - extraOffset
    ensures me < nExtra ==>
      RoundIs(Round(None, RecvHalf(me + extraOffset, sizes[me], sizes[me + extraOffset])), me, 0, sizes, |sizes|)
    ensures nExtra <= me < extraOffset ==> RoundIs(Idle(), me, 0, sizes, |sizes|)
    ensures extraOffset <= me ==>
      RoundIs(Round(SendHalf(me - extraOffset, sizes[me]), None), me, 0, sizes, |sizes|)
  {
    HeldBytesStep(sizes, me, 0, |sizes|);
    if me < nExtra {
      HeldBytesStep(sizes, me + extraOffset, 0, |sizes|);
    }
    hide HeldBytes;
  }

  lemma {:induction false} CountsAfterSetup(counts: seq<nat>, sizes: seq<nat>, nExtra: nat, extraOffset: nat)
    requires |counts| == |sizes| >= 1 && extraOffset == Pow2(Levels(|sizes|)) && nExtra == |sizes| - extraOffset
    requires forall h :: 0 <= h < nExtra ==> counts[h] == sizes[h] + sizes[h + extraOffset]
    requires forall h :: nExtra <= h < |sizes| ==> counts[h] == sizes[h]
    ensures Counted(counts, sizes, 1, |sizes|)
  {
    var n := |sizes|;
    forall h | 0 <= h < Pow2(Levels(n))
      ensures counts[h] == HeldBytes(sizes, h, 1, n)
    {
      hide HeldBytes;
      HeldBytesStep(sizes, h, 0, n);
      if h + extraOffset < n {
        HeldBytesStep(sizes, h + extraOffset, 0, n);
      }
    }
  }

  lemma {:induction false} CountOfOne(sizes: seq<nat>, h: nat, level: nat)
    requires |sizes| >= 1 && level < Levels(|sizes|) && h < Pow2(Levels(|sizes|))
    ensures Flip(h, level) < Pow2(Levels(|sizes|))
    ensures HeldBytes(sizes, h, level + 2, |sizes|) ==
      HeldBytes(sizes, h, level + 1, |sizes|) + HeldBytes(sizes, Flip(h, level), level + 1, |sizes|)
  {
    hide HeldBytes;
    FlipBound(h, level, Levels(|sizes|));
    HeldBytesStep(sizes, h, level + 1, |sizes|);
  }

  lemma {:induction false} CountsAfterLevel(counts: seq<nat>, next: seq<nat>, level: nat, sizes: seq<nat>)
    requires |counts| == |next| == |sizes| >= 1 && level < Levels(|sizes|)
    requires Counted(counts, sizes, level + 1, |sizes|)
    requires forall h {:trigger next[h]} :: 0 <= h < Pow2(Levels(|sizes|)) ==>
      Flip(h, level) < Pow2(Levels(|sizes|)) && next[h] == counts[h] + counts[Flip(h, level)]
    ensures Counted(next, sizes, level + 2, |sizes|)
  {
    hide HeldBytes, Flip, Pow2, Levels;
    forall h | 0 <= h < Pow2(Levels(|sizes|))
      ensures next[h] == HeldBytes(sizes, h, level + 2, |sizes|)
    {
      CountOfOne(sizes, h, level);
    }
  }

  /** One dimension of the hypercube: post the send and the receive, then update the counts. */
  method LevelPhase(me: nat, level: nat, lists: seq<seq<nat>>, dataToSendNow: array<nat>, dataToRecvNow: array<nat>,
                    ghost sizes: seq<nat>)
    returns (round: Round<Segment>)
    requires dataToSendNow.Length == dataToRecvNow.Length == |sizes| && |sizes| >= 1 && dataToSendNow != dataToRecvNow
    requires me < Pow2(Levels(|sizes|)) && level < Levels(|sizes|)
    requires AreExchangeLists(lists, |sizes|)
    requires Counted(dataToSendNow[..], sizes, level + 1, |sizes|)
    modifies dataToSendNow, dataToRecvNow
    ensures RoundIs(round, me, level + 1, sizes, |sizes|)
    ensures Counted(dataToSendNow[..], sizes, level + 2, |sizes|)
  {
    hide RoundIs;
    hide HeldBytes;
    forall h | 0 <= h < |lists|
      ensures level < |lists[h]| && lists[h][level] == Flip(h, level) < |lists|
    {
      assert IsExchangeList(lists[h], h, Levels(|sizes|));
      FlipBound(h, level, Levels(|sizes|));
    }
    var destHost := lists[me][level];
    var sendLength := dataToSendNow[me];
    var recvLength := dataToSendNow[destHost];
    ghost var counts := dataToSendNow[..];
    assert counts[me] == sendLength && counts[destHost] == recvLength;
    LevelRound(me, level, sendLength, recvLength, sizes);
    round := Round(SendHalf(destHost, sendLength), RecvHalf(destHost, dataToSendNow[me], recvLength));
    CountLevel(lists, level, |lists|, dataToSendNow, dataToRecvNow);
    CountsAfterLevel(counts, dataToSendNow[..], level, sizes);
  }

  /** The results go back to the extra hosts. */
  method FinalPhase(me: nat, ghost n: nat, nExtra: nat, extraOffset: nat, lastSendRecv: nat, ghost sizes: seq<nat>)
    returns (round: Round<Segment>)
    requires me < n == |sizes|
    requires extraOffset == Pow2(Levels(n)) && nExtra == n - extraOffset
    requires nExtra > 0 ==> lastSendRecv == Bytes(sizes, Ascending(n))
    ensures RoundIs(round, me, Levels(n) + 1, sizes, n)
  {
    round := Idle();
    if nExtra > 0 {
      if me >= extraOffset {
        FullCount(sizes, me - extraOffset, n);
        round := Round(None, RecvHalf(me - extraOffset, 0, lastSendRecv));
      } else if me < nExtra {
        FullCount(sizes, me, n);
        round := Round(SendHalf(me + extraOffset, lastSendRecv), None);
      }
    }
  }

  lemma {:induction false} SitsOut(me: nat, r: nat, sizes: seq<nat>, n: nat)
    requires me < n == |sizes| && Pow2(Levels(n)) <= me && 1 <= r <= Levels(n)
    ensures RoundIs(Idle(), me, r, sizes, n)
  {
  }

  /** The whole exchange as one host runs it. */
  method ExchangeStripeOfData(me: nat, hostExchangeList: seq<seq<nat>>, dataToSendNow: array<nat>,
                              dataToRecvNow: array<nat>, nExtra: nat, extraOffset: nat)
    returns (script: seq<Round<Segment>>)
    requires me < dataToSendNow.Length == dataToRecvNow.Length && dataToSendNow != dataToRecvNow
    requires AreExchangeLists(hostExchangeList, dataToSendNow.Length)
    requires extraOffset == Pow2(Levels(dataToSendNow.Length)) && nExtra == dataToSendNow.Length - extraOffset
    modifies dataToSendNow, dataToRecvNow
    ensures IsScript(script, me, old(dataToSendNow[..]), dataToSendNow.Length)
  {
    hide RoundIs, Counted, IsScript;
    ghost var n, sizes := dataToSendNow.Length, dataToSendNow[..];
    var round, lastSendRecv := SetupPhase(me, dataToSendNow, nExtra, extraOffset);
    script := [];
    Extend(script, round, me, sizes, n);
    script := script + [round];
    assert IsExchangeList(hostExchangeList[0], 0, Levels(n));
    for level := 0 to |hostExchangeList[0]|
      invariant |script| == level + 1 && IsBegun(script, me, sizes, n)
      invariant me < extraOffset ==> Counted(dataToSendNow[..], sizes, level + 1, n)
    {
      if me < extraOffset {
        round := LevelPhase(me, level, hostExchangeList, dataToSendNow, dataToRecvNow, sizes);
      } else {
        // an extra host sits out the hypercube rounds
        SitsOut(me, level + 1, sizes, n);
        round := Idle();
      }
      Extend(script, round, me, sizes, n);
      script := script + [round];
    }
    round := FinalPhase(me, n, nExtra, extraOffset, lastSendRecv, sizes);
    Extend(script, round, me, sizes, n);
    script := script + [round];
    Complete(script, me, sizes, n);
  }
}
