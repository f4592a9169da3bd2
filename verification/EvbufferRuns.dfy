/** Any run of calls on two evbuffers behaves like the same run on two flat byte strings. */
module EvbufferRuns {
  import opened Bytes
  import opened Chains
  import opened Lists
  import opened EvbufferDrain
  import EvbufferAppend
  import EvbufferPrepend
  import EvbufferMove
  import EvbufferPullup
  import EvbufferRemove

  /** A call on one buffer; the last three also take the other one. */
  datatype Call =
    | Add(data: seq<byte>)
    | Prepend(data: seq<byte>)
    | Drain(n: nat)
    | Remove(n: nat)
    | Pullup(size: int)
    | AddBuffer
    | PrependBuffer
    | RemoveBuffer(n: nat)

  /** The contents of the buffer called and of the other one; and what has been drained, and removed, from both. */
  datatype Flat = Flat(mine: seq<byte>, other: seq<byte>, drained: seq<byte>, removed: seq<byte>)

  const NEW_BUFFERS := Flat([], [], [], [])

  /** What a call means on flat byte strings. */
  function Step(f: Flat, call: Call): Flat {
    match call
    case Add(data) => f.(mine := f.mine + data)
    case Prepend(data) => f.(mine := data + f.mine)
    case Drain(n) => f.(mine := f.mine[Min(n, |f.mine|)..], drained := f.drained + f.mine[..Min(n, |f.mine|)])
    case Remove(n) => f.(mine := f.mine[Min(n, |f.mine|)..], removed := f.removed + f.mine[..Min(n, |f.mine|)])
    case Pullup(_) => f
    case AddBuffer => f.(mine := f.mine + f.other, other := [])
    case PrependBuffer => f.(mine := f.other + f.mine, other := [])
    case RemoveBuffer(n) => f.(mine := f.mine[Min(n, |f.mine|)..], other := f.other + f.mine[..Min(n, |f.mine|)])
  }

  function Swap(f: Flat): Flat {
    Flat(f.other, f.mine, f.drained, f.removed)
  }

  /** A run: each call says whether it is made on the second buffer. */
  function Run(f: Flat, calls: seq<(bool, Call)>): Flat {
    if calls == [] then f
    else
      var g := Run(f, calls[..|calls| - 1]);
      var (second, call) := calls[|calls| - 1];
      if second then Swap(Step(Swap(g), call)) else Step(g, call)
  }

  lemma TightMeans(vs: seq<seq<byte>>)
    requires IsTight(vs)
    ensures NoSpare(vs)
  {
    LastDataIsLast(vs);
    if |vs| > 0 {
      LastDataIs(vs, |vs| - 1);
    }
  }

  /** A call that concerns one buffer alone. */
  method CallOne(x: Evbuffer, ghost cs: seq<Chain>, ghost vs: seq<seq<byte>>, call: Call, ghost f: Flat)
    returns (out: seq<byte>, ghost cs': seq<Chain>, ghost vs': seq<seq<byte>>)
    requires Rep(x, cs, vs) && IsTight(vs) && !call.AddBuffer? && !call.PrependBuffer? && !call.RemoveBuffer?
    requires f.mine == Flatten(vs)
    modifies x, Members(cs)
    ensures Rep(x, cs', vs') && IsTight(vs') && fresh(Members(cs') - Members(cs))
    ensures Flatten(vs') == Step(f, call).mine && f.removed + out == Step(f, call).removed
  {
    out := [];
    assert f.removed + [] == f.removed;
    TightMeans(vs);
    match call {
      case Add(data) => cs', vs' := EvbufferAppend.Add(x, cs, vs, data);
      case Prepend(data) => cs', vs' := EvbufferPrepend.Prepend(x, cs, vs, data);
      case Drain(n) => cs', vs' := EvbufferDrain.Drain(x, cs, vs, n);
      case Remove(n) => out, cs', vs' := TakeBytes(x, cs, vs, n);
      case Pullup(size) =>
        var ok;
        ok, cs', vs' := EvbufferPullup.Pullup(x, cs, vs, size);
    }
  }

  /** A call that moves all bytes of the other buffer. */
  method CallTwo(x: Evbuffer, ghost cx: seq<Chain>, ghost vx: seq<seq<byte>>,
                 y: Evbuffer, ghost cy: seq<Chain>, ghost vy: seq<seq<byte>>, call: Call, ghost f: Flat)
    returns (ghost cx': seq<Chain>, ghost vx': seq<seq<byte>>, ghost cy': seq<Chain>, ghost vy': seq<seq<byte>>)
    requires x != y && Members(cx) !! Members(cy)
    requires Rep(x, cx, vx) && IsTight(vx) && Rep(y, cy, vy) && IsTight(vy)
    requires (call.AddBuffer? || call.PrependBuffer?) && f.mine == Flatten(vx) && f.other == Flatten(vy)
    modifies x, y, Members(cx), Members(cy)
    ensures Rep(x, cx', vx') && IsTight(vx') && Rep(y, cy', vy') && IsTight(vy')
    ensures Members(cx') !! Members(cy') && Members(cx') + Members(cy') <= Members(cx) + Members(cy)
    ensures Flatten(vx') == Step(f, call).mine && Flatten(vy') == Step(f, call).other
  {
    if call.AddBuffer? {
      cx', vx', cy', vy' := EvbufferMove.AddBuffer(x, cx, vx, y, cy, vy);
    } else {
      cx', vx', cy', vy' := EvbufferMove.PrependBuffer(x, cx, vx, y, cy, vy);
    }
  }

  /** One call, whichever it is. */
  method CallAny(x: Evbuffer, ghost cx: seq<Chain>, ghost vx: seq<seq<byte>>,
                 y: Evbuffer, ghost cy: seq<Chain>, ghost vy: seq<seq<byte>>, call: Call, ghost f: Flat)
    returns (out: seq<byte>, ghost cx': seq<Chain>, ghost vx': seq<seq<byte>>, ghost cy': seq<Chain>, ghost vy': seq<seq<byte>>)
    requires x != y && Members(cx) !! Members(cy)
    requires Rep(x, cx, vx) && IsTight(vx) && Rep(y, cy, vy) && IsTight(vy)
    requires f.mine == Flatten(vx) && f.other == Flatten(vy)
    modifies x, y, Members(cx), Members(cy)
    ensures Rep(x, cx', vx') && IsTight(vx') && Rep(y, cy', vy') && IsTight(vy')
    ensures Members(cx') !! Members(cy') && fresh(Members(cx') + Members(cy') - Members(cx) - Members(cy))
    ensures var g := Step(f, call);
      Flatten(vx') == g.mine && Flatten(vy') == g.other && f.removed + out == g.removed
  {
    out, cx', vx', cy', vy' := [], cx, vx, cy, vy;
    assert f.removed + [] == f.removed;
    if call.RemoveBuffer? {
      var r;
      r, cx', vx', cy', vy' := EvbufferRemove.RemoveTight(x, cx, vx, y, cy, vy, call.n);
    } else if call.AddBuffer? || call.PrependBuffer? {
      cx', vx', cy', vy' := CallTwo(x, cx, vx, y, cy, vy, call, f);
    } else {
      out, cx', vx' := CallOne(x, cx, vx, call, f);
    }
  }

  /**
   * Every run of calls on two new buffers: both keep the representation invariant, their contents are
   * what the same run makes of two empty byte strings, and so is what the calls of evbuffer_remove give out.
   */
  method RunAll(calls: seq<(bool, Call)>)
    returns (got: seq<byte>, x: Evbuffer, y: Evbuffer,
             ghost cx: seq<Chain>, ghost vx: seq<seq<byte>>, ghost cy: seq<Chain>, ghost vy: seq<seq<byte>>)
    ensures Rep(x, cx, vx) && IsTight(vx) && Rep(y, cy, vy) && IsTight(vy)
    ensures Flatten(vx) == Run(NEW_BUFFERS, calls).mine
    ensures Flatten(vy) == Run(NEW_BUFFERS, calls).other
    ensures got == Run(NEW_BUFFERS, calls).removed
  {
    x := new Evbuffer();
    y := new Evbuffer();
    got, cx, vx, cy, vy := [], [], [], [], [];
    for i := 0 to |calls|
      invariant fresh(x) && fresh(y) && x != y && Members(cx) !! Members(cy) && fresh(Members(cx) + Members(cy))
      invariant Rep(x, cx, vx) && IsTight(vx) && Rep(y, cy, vy) && IsTight(vy)
      invariant var f := Run(NEW_BUFFERS, calls[..i]);
        f.mine == Flatten(vx) && f.other == Flatten(vy) && f.removed == got
    {
      assert calls[..i + 1][..i] == calls[..i];
      ghost var f := Run(NEW_BUFFERS, calls[..i]);
      var (second, call) := calls[i];
      assert Run(NEW_BUFFERS, calls[..i + 1]) == if second then Swap(Step(Swap(f), call)) else Step(f, call);
      var out;
      if second {
        out, cy, vy, cx, vx := CallAny(y, cy, vy, x, cx, vx, call, Swap(f));
      } else {
        out, cx, vx, cy, vy := CallAny(x, cx, vx, y, cy, vy, call, f);
      }
      got := got + out;
    }
    assert calls[..|calls|] == calls;
  }

  /** The bytes that a call puts in, and those of a whole run. */
  function Gift(call: Call): seq<byte> {
    match call
    case Add(data) => data
    case Prepend(data) => data
    case _ => []
  }

  function Put(calls: seq<(bool, Call)>): seq<byte> {
    if calls == [] then [] else Put(calls[..|calls| - 1]) + Gift(calls[|calls| - 1].1)
  }

  function Bag(f: Flat): multiset<byte> {
    multiset(f.mine) + multiset(f.other) + multiset(f.drained) + multiset(f.removed)
  }

  lemma StepConserves(f: Flat, call: Call)
    ensures Bag(Step(f, call)) == Bag(f) + multiset(Gift(call))
  {
    if call.Drain? || call.Remove? || call.RemoveBuffer? {
      var n := Min(call.n, |f.mine|);
      assert f.mine == f.mine[..n] + f.mine[n..];
    }
  }

  /** No run loses or makes up a byte: what was put in is in one of the buffers or has left. */
  lemma {:induction false} RunConserves(calls: seq<(bool, Call)>)
    ensures Bag(Run(NEW_BUFFERS, calls)) == multiset(Put(calls))
  {
    if calls != [] {
      var before := calls[..|calls| - 1];
      RunConserves(before);
      var g := Run(NEW_BUFFERS, before);
      var (second, call) := calls[|calls| - 1];
      StepConserves(if second then Swap(g) else g, call);
      assert second ==> Bag(Swap(g)) == Bag(g);
      assert Bag(Step(Swap(g), call)) == Bag(Swap(Step(Swap(g), call)));
    }
  }

  /** What one call puts in front, the next takes out again. */
  lemma FrontUndone(f: Flat, data: seq<byte>)
    ensures Step(Step(f, Prepend(data)), Drain(|data|)) == f.(drained := f.drained + data)
    ensures Step(Step(f, Prepend(data)), Remove(|data|)) == f.(removed := f.removed + data)
    ensures Step(Step(f, PrependBuffer), Remove(|f.other|)) == f.(other := [], removed := f.removed + f.other)
  {
    assert (data + f.mine)[..|data|] == data && (data + f.mine)[|data|..] == f.mine;
    assert (f.other + f.mine)[..|f.other|] == f.other && (f.other + f.mine)[|f.other|..] == f.mine;
  }

  /** What one call puts at the end comes out behind all that was there. */
  lemma EndWaits(f: Flat, data: seq<byte>)
    ensures Step(Step(f, Add(data)), Remove(|f.mine|)) == f.(mine := data, removed := f.removed + f.mine)
    ensures Step(Step(f, AddBuffer), Remove(|f.mine|)) == f.(mine := f.other, other := [], removed := f.removed + f.mine)
  {
    assert (f.mine + data)[..|f.mine|] == f.mine && (f.mine + data)[|f.mine|..] == data;
    assert (f.mine + f.other)[..|f.mine|] == f.mine && (f.mine + f.other)[|f.mine|..] == f.other;
  }

  /** Moving bytes is removing them and adding them to the other buffer; two moves are one of both amounts. */
  lemma MoveMeans(f: Flat, n: nat, m: nat)
    ensures |Step(f, RemoveBuffer(n)).mine| == if n < |f.mine| then |f.mine| - n else 0
    ensures var g := Step(f, Remove(n));
      Step(f, RemoveBuffer(n)) == Swap(Step(Swap(g), Add(g.removed[|f.removed|..]))).(removed := f.removed)
    ensures n >= |f.mine| ==> Step(f, RemoveBuffer(n)) == Swap(Step(Swap(f), AddBuffer))
    ensures Step(Step(f, RemoveBuffer(n)), RemoveBuffer(m)) == Step(f, RemoveBuffer(n + m))
  {
    var k := Min(n, |f.mine|);
    assert (f.removed + f.mine[..k])[|f.removed|..] == f.mine[..k];
    var l := Min(m, |f.mine[k..]|);
    assert f.mine[..k + l] == f.mine[..k] + f.mine[k..][..l];
    Assoc(f.other, f.mine[..k], f.mine[k..][..l]);
  }

  /** Bytes are added to the first buffer, moved on to the second, and removed from that. */
  ghost predicate Piped(calls: seq<(bool, Call)>) {
    forall i :: 0 <= i < |calls| ==>
      var (second, call) := calls[i];
      if second then call.AddBuffer? || call.Remove? || call.Pullup? else call.Add? || call.RemoveBuffer? || call.Pullup?
  }

  lemma PipeStep(f: Flat, second: bool, call: Call)
    requires if second then call.AddBuffer? || call.Remove? || call.Pullup? else call.Add? || call.RemoveBuffer? || call.Pullup?
    ensures var g := if second then Swap(Step(Swap(f), call)) else Step(f, call);
      g.removed + (g.other + g.mine) == f.removed + (f.other + f.mine) + Gift(call)
  {
    match call {
      case Add(data) =>
        Assoc(f.other, f.mine, data);
        Assoc(f.removed, f.other + f.mine, data);
      case Remove(n) =>
        var m := Min(n, |f.other|);
        assert f.other == f.other[..m] + f.other[m..];
        Assoc(f.other[..m], f.other[m..], f.mine);
        Assoc(f.removed, f.other[..m], f.other[m..] + f.mine);
      case RemoveBuffer(n) =>
        var m := Min(n, |f.mine|);
        assert f.mine == f.mine[..m] + f.mine[m..];
        Assoc(f.other, f.mine[..m], f.mine[m..]);
      case _ =>
    }
    assert call.Add? || f.removed + (f.other + f.mine) + [] == f.removed + (f.other + f.mine);
  }

  /** Two buffers used as a pipe are one: the bytes come out in the order in which they were added. */
  lemma {:induction false} PipeOrder(calls: seq<(bool, Call)>)
    requires Piped(calls)
    ensures var f := Run(NEW_BUFFERS, calls); Put(calls) == f.removed + (f.other + f.mine)
  {
    if calls != [] {
      var n := |calls| - 1;
      PipeOrder(calls[..n]);
      PipeStep(Run(NEW_BUFFERS, calls[..n]), calls[n].0, calls[n].1);
    }
  }
}
