/** `ulm_scatter`: packing at the root, the stripes, and what each process copies out. */
module Scatter {
  import opened Arith
  import opened Layout
  import opened Stripes
  import opened Placement
  import opened CopyOut
  import opened StripedGather
  import opened StripeExchange

  // ---------------------------------------------------------------- packing

  /** The bytes for rank r in this stripe: `len` of them, `copied` into its part of the send buffer. */
  function Slot<T>(sendbuf: seq<T>, r: nat, perProc: nat, copied: nat, len: nat): seq<T> {
    Read(sendbuf, Segment(r * perProc + copied, len))
  }

  function Slots<T>(sendbuf: seq<T>, n: nat, perProc: nat, copied: nat, len: nat): (ss: seq<seq<T>>)
    ensures |ss| == n && forall r :: 0 <= r < n ==> ss[r] == Slot(sendbuf, r, perProc, copied, len)
  {
    seq(n, r requires 0 <= r < n => Slot(sendbuf, r, perProc, copied, len))
  }

  lemma {:induction false} SlotInside<T>(sendbuf: seq<T>, r: nat, n: nat, perProc: nat, copied: nat, len: nat)
    requires r < n && |sendbuf| == n * perProc && copied + len <= perProc
    ensures r * perProc + copied + len <= |sendbuf|
    ensures |Slot(sendbuf, r, perProc, copied, len)| == len
  {
    MultiplesApart(r, n, perProc);
  }

  /** Appends the slots of one host's ranks: `all` are the ranks of all hosts in order, k0 of them done. */
  method PackRanks<T>(packedBuf: array<T>, bufOffset0: nat, sendbuf: seq<T>, ranks: seq<nat>, perProc: nat,
                      copied: nat, len: nat,
                      ghost n: nat, ghost all: seq<nat>, ghost k0: nat, ghost buf0: seq<T>)
    returns (bufOffset: nat)
    requires copied + len <= perProc && |sendbuf| == n * perProc && InRange(all, n) && |buf0| == packedBuf.Length
    requires k0 + |ranks| <= |all| && all[k0..k0 + |ranks|] == ranks && InRange(ranks, n)
    requires Bytes(Sizes(Slots(sendbuf, n, perProc, copied, len)), all) <= packedBuf.Length
    requires bufOffset0 == |Flat(Slots(sendbuf, n, perProc, copied, len), all[..k0])|
    requires packedBuf[..] == Write(buf0, 0, Flat(Slots(sendbuf, n, perProc, copied, len), all[..k0]))
    modifies packedBuf
    ensures bufOffset == |Flat(Slots(sendbuf, n, perProc, copied, len), all[..k0 + |ranks|])|
    ensures packedBuf[..] == Write(buf0, 0, Flat(Slots(sendbuf, n, perProc, copied, len), all[..k0 + |ranks|]))
  {
    hide Flat, Bytes, Write, Slot;
    ghost var slots := Slots(sendbuf, n, perProc, copied, len);
    bufOffset := bufOffset0;
    for p := 0 to |ranks|
      invariant bufOffset == |Flat(slots, all[..k0 + p])|
      invariant packedBuf[..] == Write(buf0, 0, Flat(slots, all[..k0 + p]))
    {
      assert all[k0 + p] == ranks[p];
      SlotInside(sendbuf, ranks[p], n, perProc, copied, len);
      PackStep(slots, all, k0 + p, buf0);
      PackSlot(packedBuf, bufOffset, sendbuf, ranks[p], perProc, copied, len);
      bufOffset := bufOffset + len;
    }
  }

  method PackSlot<T>(packedBuf: array<T>, bufOffset: nat, sendbuf: seq<T>, proc: nat, perProc: nat, copied: nat,
                     len: nat)
    requires proc * perProc + copied + len <= |sendbuf| && bufOffset + len <= packedBuf.Length
    modifies packedBuf
    ensures packedBuf[..] == Write(old(packedBuf[..]), bufOffset, Slot(sendbuf, proc, perProc, copied, len))
  {
    hide Write;
    MemCopy(sendbuf, proc * perProc + copied, packedBuf, bufOffset, len);
  }

  /** Appending one slot. */
  lemma {:induction false} PackStep<T>(slots: seq<seq<T>>, all: seq<nat>, k: nat, buf: seq<T>)
    requires InRange(all, |slots|) && k < |all| && Bytes(Sizes(slots), all) <= |buf|
    ensures var done, next := Flat(slots, all[..k]), Flat(slots, all[..k + 1]);
      && |done| + |slots[all[k]]| == |next| <= |buf|
      && Write(Write(buf, 0, done), |done|, slots[all[k]]) == Write(buf, 0, next)
  {
    hide Flat, Bytes;
    FlatLength(slots, all[..k]);
    PrefixSum(Sizes(slots), all, k, |all|);
    assert all[..|all|] == all;
    FlatStep(slots, all[..k + 1]);
    assert all[..k + 1][..k] == all[..k];
    WriteNext(buf, Flat(slots, all[..k]), slots[all[k]]);
  }

  lemma {:induction false} WriteNext<T>(buf: seq<T>, a: seq<T>, b: seq<T>)
    requires |a| + |b| <= |buf|
    ensures Write(Write(buf, 0, a), |a|, b) == Write(buf, 0, a + b)
  {
  }

  /** `packScatterData`: the root packs everybody's bytes in scatter order. */
  method PackScatterData<T>(packedBuf: array<T>, sendbuf: seq<T>, scatterDataNodeList: seq<nat>, rootHost: nat,
                            procs: seq<seq<nat>>,
                            perProc: nat, copied: nat, len: nat, ghost n: nat)
    requires IsPlacement(procs, n) && rootHost < |procs| && IsPermutation(scatterDataNodeList, |procs|)
    requires copied + len <= perProc && |sendbuf| == n * perProc
    requires var slots := Slots(sendbuf, n, perProc, copied, len);
      Bytes(Sizes(slots), BufferOrder(procs, scatterDataNodeList, rootHost, n)) <= packedBuf.Length
    modifies packedBuf
    ensures packedBuf[..] == Write(old(packedBuf[..]), 0, Flat(Slots(sendbuf, n, perProc, copied, len),
                                                               BufferOrder(procs, scatterDataNodeList, rootHost, n)))
    ensures PacksBytes(sendbuf, BufferOrder(procs, scatterDataNodeList, rootHost, n), perProc, copied, len,
                       packedBuf[..], old(packedBuf[..]))
  {
    hide Flat, Bytes, Slots, Write;
    ghost var buf0 := packedBuf[..];
    NothingWritten(buf0);
    ghost var hosts := HostsOf(scatterDataNodeList, rootHost, |procs|);
    ghost var all := BufferOrder(procs, scatterDataNodeList, rootHost, n);
    ghost var slots := Slots(sendbuf, n, perProc, copied, len);
    FlatOfNone(slots);
    FlatOfNone(procs);
    var bufOffset: nat := 0;
    assert hosts[..0] == [] && all[..0] == [];
    for h := 0 to |scatterDataNodeList|
      invariant InRange(hosts[..h], |procs|) && |Flat(procs, hosts[..h])| <= |all|
      invariant bufOffset == |Flat(slots, all[..|Flat(procs, hosts[..h])|])|
      invariant packedBuf[..] == Write(buf0, 0, Flat(slots, all[..|Flat(procs, hosts[..h])|]))
    {
      var host := scatterDataNodeList[h] + rootHost;
      if host >= |procs| {
        host := host - |procs|;
      }
      HostRanks(procs, hosts, h);
      bufOffset := PackRanks(packedBuf, bufOffset, sendbuf, procs[host], perProc, copied, len,
                             n, all, |Flat(procs, hosts[..h])|, buf0);
    }
    assert hosts[..|hosts|] == hosts && all[..|all|] == all;
    PackedIs(sendbuf, n, perProc, copied, len, all, packedBuf[..], buf0);
  }

  /**
   The k-th slot of the buffer is for rank `all[k]`: `len` bytes of the send buffer from `copied` into
   the part of that rank on.  Behind the slots the buffer is as it was.
   */
  ghost predicate PacksBytes<T>(sendbuf: seq<T>, all: seq<nat>, perProc: nat, copied: nat, len: nat, packed: seq<T>,
                                before: seq<T>)
  {
    && |packed| == |before| >= |all| * len && packed[|all| * len..] == before[|all| * len..]
    && forall k :: 0 <= k < |all| ==> SameBytes(packed, k * len, sendbuf, all[k] * perProc + copied, len)
  }

  lemma {:induction false} PackedIs<T>(sendbuf: seq<T>, n: nat, perProc: nat, copied: nat, len: nat, all: seq<nat>,
                                       packed: seq<T>, before: seq<T>)
    requires copied + len <= perProc && |sendbuf| == n * perProc && InRange(all, n)
    requires Bytes(Sizes(Slots(sendbuf, n, perProc, copied, len)), all) <= |before|
    requires packed == Write(before, 0, Flat(Slots(sendbuf, n, perProc, copied, len), all))
    ensures PacksBytes(sendbuf, all, perProc, copied, len, packed, before)
  {
    hide Flat, Bytes, Slot, Write, Slots, SameBytes;
    var slots := Slots(sendbuf, n, perProc, copied, len);
    SlotLengths(sendbuf, n, perProc, copied, len);
    FlatLength(slots, all);
    EqualBytes(Sizes(slots), all, len);
    WrittenFront(before, Flat(slots, all));
    forall k | 0 <= k < |all|
      ensures SameBytes(packed, k * len, sendbuf, all[k] * perProc + copied, len)
    {
      PackedSlot(sendbuf, n, perProc, copied, len, all, packed, k, k * len, all[k] * perProc + copied);
    }
  }

  lemma {:induction false} SlotLengths<T>(sendbuf: seq<T>, n: nat, perProc: nat, copied: nat, len: nat)
    requires copied + len <= perProc && |sendbuf| == n * perProc
    ensures forall r :: 0 <= r < n ==> |Slots(sendbuf, n, perProc, copied, len)[r]| == len
  {
    hide Slot;
    forall r | 0 <= r < n
      ensures |Slots(sendbuf, n, perProc, copied, len)[r]| == len
    {
      SlotInside(sendbuf, r, n, perProc, copied, len);
    }
  }

  lemma {:induction false} WrittenFront<T>(buf: seq<T>, m: seq<T>)
    requires |m| <= |buf|
    ensures m <= Write(buf, 0, m) && Write(buf, 0, m)[|m|..] == buf[|m|..]
  {
  }

  lemma {:induction false} PackedSlot<T>(sendbuf: seq<T>, n: nat, perProc: nat, copied: nat, len: nat, all: seq<nat>,
                                         packed: seq<T>, k: nat, at: nat, from: nat)
    requires copied + len <= perProc && |sendbuf| == n * perProc && InRange(all, n) && k < |all|
    requires at == k * len && from == all[k] * perProc + copied
    requires Flat(Slots(sendbuf, n, perProc, copied, len), all) <= packed
    ensures SameBytes(packed, at, sendbuf, from, len)
  {
    hide Flat, Slot;
    SlotLengths(sendbuf, n, perProc, copied, len);
    OwnSlice(Slots(sendbuf, n, perProc, copied, len), all, k, len, packed);
    SlotIs(sendbuf, all[k], n, perProc, copied, len);
  }

  lemma {:induction false} SlotIs<T>(sendbuf: seq<T>, r: nat, n: nat, perProc: nat, copied: nat, len: nat)
    requires r < n && |sendbuf| == n * perProc && copied + len <= perProc
    ensures var from := r * perProc + copied;
      from + len <= |sendbuf| && Slot(sendbuf, r, perProc, copied, len) == sendbuf[from..from + len]
  {
    SlotInside(sendbuf, r, n, perProc, copied, len);
  }

  // ---------------------------------------------------------------- delivery

  /** The i-th process of a host finds its slot at `myLocalRank * sendNow`. */
  lemma {:induction false} OwnSlice<T>(slots: seq<seq<T>>, ranks: seq<nat>, i: nat, len: nat, buf: seq<T>)
    requires InRange(ranks, |slots|) && i < |ranks| && Flat(slots, ranks) <= buf
    requires forall r :: 0 <= r < |slots| ==> |slots[r]| == len
    ensures i * len + len <= |buf| && Read(buf, Segment(i * len, len)) == slots[ranks[i]]
  {
    hide Flat, Bytes;
    CursorStep(slots, ranks, i, buf);
    EqualBytes(Sizes(slots), ranks[..i], len);
  }

  lemma {:induction false} EqualBytes(sizes: seq<nat>, ranks: seq<nat>, len: nat)
    requires InRange(ranks, |sizes|) && forall r :: 0 <= r < |sizes| ==> sizes[r] == len
    ensures Bytes(sizes, ranks) == |ranks| * len
    decreases |ranks|
  {
    if ranks == [] {
      assert 0 * len == 0;
    } else {
      EqualBytes(sizes, ranks[..|ranks| - 1], len);
      assert |ranks| * len == (|ranks| - 1) * len + len;
    }
  }

  // ---------------------------------------------------------------- the stripe loop

  /** How many stripes `ulm_scatter` makes for the bytes a process expects. */
  function StripesFor(recvBytes: nat, size: nat): nat
    requires size > 0
  {
    if recvBytes > 0 then Quotient(recvBytes - 1, size) + 1 else 1
  }

  lemma {:induction false} StripesSuffice(bytes: nat, size: nat)
    requires size > 0
    ensures StripesFor(bytes, size) >= 1 && bytes <= StripesFor(bytes, size) * size
    ensures bytes > 0 ==> (StripesFor(bytes, size) - 1) * size < bytes
  {
    if bytes > 0 {
      StripesOfOne(bytes, size);
    }
  }

  /** What a process has taken in the stripes before `stripe`. */
  function Sent(bytes: nat, stripe: nat, size: nat): nat { if bytes <= stripe * size then bytes else stripe * size }

  /** The slice of the i-th process of a host. */
  function SliceOf(i: nat, len: nat): Segment { Segment(i * len, len) }

  /** A process's memory after it copied its slice of a stripe, by its own send count. */
  function Sliced<T>(mem: seq<T>, shared: seq<T>, myLocalRank: nat, sendBytes: nat, stripe: nat, size: nat): (m: seq<T>)
    ensures |m| == |mem|
  {
    var sendNow := PieceLen(sendBytes, stripe, size);
    Write(mem, Sent(sendBytes, stripe, size), Read(shared, SliceOf(myLocalRank, sendNow)))
  }

  /** One stripe of one process: the copy, and what is left of its count. */
  method CopySlice<T>(recvbuf: array<T>, shared: seq<T>, myLocalRank: nat, bytesPerProcSent: nat,
                      bytesPerProcToSend: nat, perRankStripeSize: nat, ghost sendBytes: nat, ghost stripe: nat)
    returns (sent: nat, toSend: nat)
    requires bytesPerProcSent == Sent(sendBytes, stripe, perRankStripeSize)
    requires bytesPerProcToSend == sendBytes - bytesPerProcSent
    requires var sendNow := PieceLen(sendBytes, stripe, perRankStripeSize);
      (myLocalRank + 1) * sendNow <= |shared| && bytesPerProcSent + sendNow <= recvbuf.Length
    modifies recvbuf
    ensures recvbuf[..] == Sliced(old(recvbuf[..]), shared, myLocalRank, sendBytes, stripe, perRankStripeSize)
    ensures sent == Sent(sendBytes, stripe + 1, perRankStripeSize) && toSend == sendBytes - sent
  {
    hide Write;
    NextSent(sendBytes, stripe, perRankStripeSize);
    var sendNow := bytesPerProcToSend;
    if sendNow > perRankStripeSize {
      sendNow := perRankStripeSize;
    }
    assert (myLocalRank + 1) * sendNow == myLocalRank * sendNow + sendNow;
    MemCopy(shared, myLocalRank * sendNow, recvbuf, bytesPerProcSent, sendNow);
    sent, toSend := bytesPerProcSent + sendNow, bytesPerProcToSend - sendNow;
  }

  lemma {:induction false} NextSent(bytes: nat, stripe: nat, size: nat)
    ensures Sent(bytes, 0, size) == 0
    ensures Sent(bytes, stripe + 1, size) == Sent(bytes, stripe, size) + PieceLen(bytes, stripe, size)
    ensures var left := bytes - Sent(bytes, stripe, size);
      PieceLen(bytes, stripe, size) == if left > size then size else left
  {
    assert (stripe + 1) * size == stripe * size + size;
    assert 0 * size == 0;
  }

  // ---------------------------------------------------------------- send counts on receiving processes

  /** How many bytes a process copies out when its own send count says `sendBytes`. */
  method CopiedBytes(sendBytes: nat, recvBytes: nat, perRankStripeSize: nat) returns (copied: nat)
    requires perRankStripeSize > 0
    ensures copied == Copied(sendBytes, recvBytes, perRankStripeSize)
  {
    var numStripes := StripesFor(recvBytes, perRankStripeSize);
    var bytesPerProcToSend := sendBytes;
    copied := 0;
    for stripe := 0 to numStripes
      invariant copied == if sendBytes <= stripe * perRankStripeSize then sendBytes else stripe * perRankStripeSize
      invariant bytesPerProcToSend == sendBytes - copied
    {
      var sendNow := bytesPerProcToSend;
      if sendNow > perRankStripeSize {
        sendNow := perRankStripeSize;
      }
      copied := copied + sendNow;
      bytesPerProcToSend := bytesPerProcToSend - sendNow;
      assert (stripe + 1) * perRankStripeSize == stripe * perRankStripeSize + perRankStripeSize;
    }
  }

  function Copied(sendBytes: nat, recvBytes: nat, size: nat): nat
    requires size > 0
  {
    Sent(sendBytes, StripesFor(recvBytes, size), size)
  }

  /**
   MPI lets only the root's send count matter, but every process goes by its own.  A process
   copies exactly the bytes it expects if and only if its send count says the same number, or
   says more while the expected bytes fill whole stripes.
   */
  lemma {:induction false} CopiesAllIff(sendBytes: nat, recvBytes: nat, size: nat)
    requires size > 0
    ensures Copied(sendBytes, recvBytes, size) == recvBytes <==>
      sendBytes == recvBytes || (sendBytes > recvBytes > 0 && recvBytes % size == 0)
  {
    StripesSuffice(recvBytes, size);
    var k := StripesFor(recvBytes, size);
    if recvBytes > 0 {
      assert (k - 1) * size + size == k * size;
      if recvBytes == k * size {
        DivisionIs(recvBytes, size, k, 0);
      } else {
        DivisionIs(recvBytes, size, k - 1, recvBytes - (k - 1) * size);
      }
    }
  }
}
