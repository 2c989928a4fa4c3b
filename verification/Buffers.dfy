/** Networks whose processes move segments of a byte buffer. */
module Buffers {
  import opened Layout
  import opened Network

  /** A host's state is its shared buffer. */
  ghost function BufferNet<T>(scripts: seq<seq<Round<Segment>>>): Net<Segment, seq<T>, seq<T>> {
    Net(scripts, false,
        (seg: Segment, buf: seq<T>) => Read(buf, seg),
        (seg: Segment, buf: seq<T>, m: seq<T>) => Write(buf, seg.off, m),
        (seg: Segment, m: seq<T>) => |m| == seg.len)
  }

  lemma {:induction false} RunsOn<T>(net: Net<Segment, seq<T>, seq<T>>, init: seq<seq<T>>, sched: seq<nat>)
    requires net == BufferNet<T>(net.scripts) && |init| == |net.scripts| && Consistent(net) && Accepting(net, init)
    ensures var c := Exec(net, Start(net, init), sched); Done(net, c) || exists p :: CanMove(net, c, p, true)
  {
    hide Done, CanMove;
    var c := Exec(net, Start(net, init), sched);
    if !Done(net, c) {
      var p := NeverStuck(net, init, seq(|init|, i => 0), sched);
    }
  }

  lemma {:induction false} TraceStart<A, S, M>(net: Net<A, S, M>, init: seq<S>, t: seq<seq<S>>)
    requires Consistent(net) && |init| == |net.scripts| && IsTrace(net, init, t)
    ensures t[0] == init
  {
  }

  lemma {:induction false} TraceShape<A, S, M>(net: Net<A, S, M>, init: seq<S>, t: seq<seq<S>>, r: nat)
    requires Consistent(net) && |init| == |net.scripts| && IsTrace(net, init, t) && r < |t|
    ensures |t[r]| == |init|
  {
  }

  /** Messages do not change the length of a buffer. */
  lemma {:induction false} TraceLengths<T>(net: Net<Segment, seq<T>, seq<T>>, init: seq<seq<T>>, t: seq<seq<seq<T>>>,
                                           r: nat, p: nat)
    requires net == BufferNet<T>(net.scripts) && Consistent(net) && |init| == |net.scripts| && IsTrace(net, init, t)
    requires r < |t| && p < |init|
    ensures |t[r]| == |init| && |t[r][p]| == |init[p]|
    decreases r
  {
    hide Consistent, IsTrace, Read;
    TraceStart(net, init, t);
    TraceShape(net, init, t, r);
    if r > 0 {
      TraceLengths(net, init, t, r - 1, p);
      TraceNext(net, init, t, r - 1, p);
    }
  }

  lemma {:induction false} ScriptLengths<A>(scripts: seq<seq<Round<A>>>, len: nat)
    requires scripts != [] && forall p :: 0 <= p < |scripts| ==> |scripts[p]| == len
    ensures MaxLength(scripts) == len
    decreases |scripts|
  {
    if |scripts| > 1 {
      ScriptLengths(scripts[1..], len);
    }
  }

  /** The rounds in which a script does something. */
  function Active<A>(script: seq<Round<A>>): seq<Round<A>> {
    if script == [] then []
    else
      var last := script[|script| - 1];
      Active(script[..|script| - 1]) + (if last.out.None? && last.inc.None? then [] else [last])
  }

  /** One round more. */
  lemma {:induction false} ActiveStep<A>(script: seq<Round<A>>, r: nat)
    requires r < |script|
    ensures Active(script[..0]) == []
    ensures Active(script[..r + 1]) == Active(script[..r]) +
      if script[r].out.None? && script[r].inc.None? then [] else [script[r]]
  {
    assert script[..r + 1][..r] == script[..r];
  }
}
