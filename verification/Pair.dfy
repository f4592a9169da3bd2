/** A pair of bufferevents: what is written at one end is read at the other. */
module Pair {
  import opened Bytes
  import opened Chains
  import opened Lists
  import opened EvbufferDrain
  import EvbufferAppend
  import EvbufferMove
  import EvbufferRemove
  import EvbufferRuns

  /** One end of a pair, as far as transfers look at it. */
  class PairEnd {
    const input: Evbuffer
    const output: Evbuffer
    var enabledRead: bool
    var enabledWrite: bool
    /** BEV_SUSPEND_WM in read_suspended, and whether any other reason is there. */
    var wmSuspended: bool
    var readSuspended: bool
    var writeSuspended: bool
    /** wm_read.high; with 0, no limit, bufferevent_inbuf_wm_cb is not called. */
    var high: nat
    /** The end of `input` and the start of `output` are frozen for all but transfers. */
    var inputFrozen: bool
    var outputFrozen: bool

    constructor ()
      ensures fresh(input) && fresh(output) && input != output
      ensures Rep(input, [], []) && Rep(output, [], [])
      ensures inputFrozen && outputFrozen && high == 0
      ensures enabledWrite && !enabledRead && !wmSuspended && !readSuspended && !writeSuspended
    {
      input := new Evbuffer();
      output := new Evbuffer();
      enabledRead, enabledWrite, wmSuspended, readSuspended, writeSuspended := false, true, false, false, false;
      high, inputFrozen, outputFrozen := 0, true, true;
    }
  }

  /** A tight buffer and its layout. */
  ghost predicate Tight(buf: Evbuffer, cs: seq<Chain>, vs: seq<seq<byte>>)
    reads buf, Members(cs)
  {
    Rep(buf, cs, vs) && IsTight(vs)
  }

  /** How many bytes a transfer moves. */
  function Share(high: nat, have: nat, offered: nat, ignoreWm: bool): (n: nat)
    ensures n <= offered
  {
    if high == 0 then offered
    else if have < high then Min(high - have, offered)
    else if ignoreWm then offered
    else 0
  }

  /** The moves of be_pair_transfer. */
  method MoveShare(output: Evbuffer, ghost cso: seq<Chain>, ghost vso: seq<seq<byte>>,
                   input: Evbuffer, ghost csi: seq<Chain>, ghost vsi: seq<seq<byte>>, high: nat, ignoreWm: bool)
    returns (ghost cso': seq<Chain>, ghost vso': seq<seq<byte>>, ghost csi': seq<Chain>, ghost vsi': seq<seq<byte>>)
    requires Tight(output, cso, vso) && Tight(input, csi, vsi) && input != output && Members(cso) !! Members(csi)
    modifies output, input, Members(cso), Members(csi)
    ensures Tight(output, cso', vso') && Tight(input, csi', vsi') && Members(cso') !! Members(csi')
    ensures fresh(Members(cso') + Members(csi') - (Members(cso) + Members(csi)))
    ensures var n := Share(high, |Flatten(vsi)|, |Flatten(vso)|, ignoreWm);
      Flatten(vsi') == Flatten(vsi) + Flatten(vso)[..n] && Flatten(vso') == Flatten(vso)[n..]
  {
    cso', vso', csi', vsi' := cso, vso, csi, vsi;
    var dstSize := input.totalLen;
    if high > 0 && dstSize < high {
      var n;
      n, cso', vso', csi', vsi' := EvbufferRemove.RemoveTight(output, cso, vso, input, csi, vsi, high - dstSize);
    } else if high == 0 || ignoreWm {
      csi', vsi', cso', vso' := EvbufferMove.AddBuffer(input, csi, vsi, output, cso, vso);
    }
  }

  /** What moving its share does to the two contents and to the high watermark. */
  lemma Moved(input: seq<byte>, output: seq<byte>, high: nat, ignoreWm: bool)
    ensures var n := Share(high, |input|, |output|, ignoreWm);
      var input', output' := input + output[..n], output[n..];
      && input' + output' == input + output
      && (!ignoreWm && (high == 0 || |input| <= high) ==>
            (high == 0 || |input'| <= high) && (output' == [] || (high > 0 && |input'| == high)))
      && (!ignoreWm && 0 < high <= |input| ==> output' == output)
      && (ignoreWm ==> if 0 < high && |input| < high then |input'| == Min(high, |input| + |output|) else output' == [])
  {
    var n := Share(high, |input|, |output|, ignoreWm);
    Assoc(input, output[..n], output[n..]);
    assert output[..n] + output[n..] == output;
  }

  /** What happens at the two ends, as far as bytes from the first to the second are concerned. */
  datatype Step =
    | Written(data: seq<byte>)
    | ReadBytes(n: nat)
    | EnableWrite
    | EnableRead
    | DisableWrite
    | DisableRead
    | SuspendRead
    | UnsuspendRead
    | SuspendWrite
    | UnsuspendWrite
    | SetHigh(high: nat)
    | Flush

  /** One direction of a pair: the reader's input, the writer's output, and the flags that matter. */
  datatype Channel = Channel(input: seq<byte>, output: seq<byte>, enabledWrite: bool, enabledRead: bool,
                             writeSuspended: bool, readSuspended: bool, wmSuspended: bool, high: nat)

  const NEW_CHANNEL := Channel([], [], true, false, false, false, false, 0)

  /** A transfer, and what the watermark callback notes when bytes have come into the input. */
  function Delivered(c: Channel, ignoreWm: bool): Channel {
    var n := Share(c.high, |c.input|, |c.output|, ignoreWm);
    var d := c.(input := c.input + c.output[..n], output := c.output[n..]);
    if n > 0 && c.high > 0 then d.(wmSuspended := |d.input| >= c.high) else d
  }

  /** Both ends are enabled, and nothing but the watermark suspends reading. */
  predicate Willing(c: Channel) {
    c.enabledWrite && c.enabledRead && !c.readSuspended
  }

  function Talked(c: Channel): Channel {
    if Willing(c) && !c.wmSuspended then Delivered(c, false) else c
  }

  /** The watermark does not suspend reading any more, which goes on if it is enabled. */
  function Resumed(c: Channel): Channel {
    Talked(c.(wmSuspended := false))
  }

  /** The watermark callback, when bytes have been taken out of the input. */
  function InputTaken(c: Channel): Channel {
    if c.high == 0 then c else if |c.input| >= c.high then c.(wmSuspended := true) else Resumed(c)
  }

  /** bufferevent_setwatermark. */
  function Marked(c: Channel, high: nat): Channel {
    var d := c.(high := high);
    if high > 0 && |c.input| > high then d.(wmSuspended := true)
    else if high > 0 && |c.input| == high then d
    else Resumed(d)
  }

  /** The flags after a step that only sets flags. */
  function Flagged(c: Channel, step: Step): Channel {
    match step
    case EnableWrite => c.(enabledWrite := true)
    case EnableRead => c.(enabledRead := true)
    case DisableWrite => c.(enabledWrite := false)
    case DisableRead => c.(enabledRead := false)
    case SuspendRead => c.(readSuspended := true)
    case UnsuspendRead => c.(readSuspended := false)
    case SuspendWrite => c.(writeSuspended := true)
    case UnsuspendWrite => c.(writeSuspended := false)
    case _ => c
  }

  /** The step makes the backend's enable function run, once the flags are set. */
  predicate Enables(c: Channel, step: Step) {
    match step
    case EnableWrite => !c.writeSuspended
    case UnsuspendWrite => c.enabledWrite
    case EnableRead => !c.wmSuspended && !c.readSuspended
    case UnsuspendRead => !c.wmSuspended && c.enabledRead
    case _ => false
  }

  /** What a step makes of the channel, and what it reads out of it. */
  function Next(c: Channel, step: Step): (Channel, seq<byte>) {
    match step
    case Written(data) => (if data == [] then c else Talked(c.(output := c.output + data)), [])
    case ReadBytes(n) =>
      var m := Min(n, |c.input|);
      (if m == 0 then c else InputTaken(c.(input := c.input[m..])), c.input[..m])
    case SetHigh(high) => (Marked(c, high), [])
    case Flush => (Delivered(c, true), [])
    case _ => (if Enables(c, step) then Talked(Flagged(c, step)) else Flagged(c, step), [])
  }

  /** The channel after a run, and all that was read in it. */
  function Ran(c: Channel, steps: seq<Step>): (Channel, seq<byte>) {
    if steps == [] then (c, [])
    else
      var (d, got) := Ran(c, steps[..|steps| - 1]);
      var (e, data) := Next(d, steps[|steps| - 1]);
      (e, got + data)
  }

  /** What a run of steps sends. */
  function Sent(steps: seq<Step>): seq<byte> {
    if steps == [] then []
    else Sent(steps[..|steps| - 1]) + if steps[|steps| - 1].Written? then steps[|steps| - 1].data else []
  }

  lemma TalkedKeeps(c: Channel)
    ensures Talked(c).input + Talked(c).output == c.input + c.output
  {
    Moved(c.input, c.output, c.high, false);
  }

  lemma ReadKeeps(c: Channel, n: nat)
    ensures var (d, data) := Next(c, ReadBytes(n)); data + (d.input + d.output) == c.input + c.output
  {
    var m := Min(n, |c.input|);
    var data, left := c.input[..m], c.input[m..];
    TalkedKeeps(c.(input := left, wmSuspended := false));
    Assoc(data, left, c.output);
    assert data + left == c.input;
  }

  lemma WriteKeeps(c: Channel, data: seq<byte>)
    ensures var d := Next(c, Written(data)).0; d.input + d.output == c.input + c.output + data
  {
    TalkedKeeps(c.(output := c.output + data));
    Assoc(c.input, c.output, data);
    assert data == [] ==> c.input + c.output + data == c.input + c.output;
  }

  lemma FlagKeeps(c: Channel, step: Step)
    requires !step.Written? && !step.ReadBytes? && !step.SetHigh? && !step.Flush?
    ensures var d := Next(c, step).0; d.input + d.output == c.input + c.output
  {
    var f := Flagged(c, step);
    FlaggedSame(c, step);
    TalkedKeeps(f);
    var d := Talked(f);
    assert d.input + d.output == c.input + c.output;
    assert Next(c, step).0 == if Enables(c, step) then d else f;
  }

  lemma FlaggedSame(c: Channel, step: Step)
    ensures Flagged(c, step).input == c.input && Flagged(c, step).output == c.output
  {
  }

  lemma MarkKeeps(c: Channel, high: nat)
    ensures var d := Marked(c, high); d.input + d.output == c.input + c.output
  {
    TalkedKeeps(c.(high := high, wmSuspended := false));
  }

  /** A step that takes no byte out. */
  lemma PutKeeps(c: Channel, step: Step)
    requires !step.ReadBytes?
    ensures Next(c, step).1 == []
    ensures var d := Next(c, step).0;
      d.input + d.output == c.input + c.output + if step.Written? then step.data else []
  {
    assert c.input + c.output + [] == c.input + c.output;
    match step {
      case Written(data) => WriteKeeps(c, data);
      case SetHigh(high) => MarkKeeps(c, high);
      case Flush => Moved(c.input, c.output, c.high, true);
      case _ => FlagKeeps(c, step);
    }
  }

  /** No step loses, makes up or reorders a byte. */
  lemma NextKeeps(c: Channel, step: Step)
    ensures var (d, data) := Next(c, step);
      data + (d.input + d.output) == c.input + c.output + if step.Written? then step.data else []
  {
    if step.ReadBytes? {
      ReadKeeps(c, step.n);
      assert c.input + c.output + [] == c.input + c.output;
    } else {
      PutKeeps(c, step);
      var d := Next(c, step).0;
      assert [] + (d.input + d.output) == d.input + d.output;
    }
  }

  /**
   * The pair is a FIFO channel: after any run, what was sent is what has been read, then what stands
   * in the reader's input, then what stands in the writer's output.
   */
  lemma {:induction false} Fifo(steps: seq<Step>)
    ensures var (c, got) := Ran(NEW_CHANNEL, steps);
      Sent(steps) == got + (c.input + c.output)
  {
    if steps != [] {
      var before, step := steps[..|steps| - 1], steps[|steps| - 1];
      Fifo(before);
      var (c, got) := Ran(NEW_CHANNEL, before);
      var (d, data) := Next(c, step);
      NextKeeps(c, step);
      Assoc(got, c.input + c.output, if step.Written? then step.data else []);
      Assoc(got, data, d.input + d.output);
    }
  }

  /** The watermark suspends reading only when the input has reached it. */
  ghost predicate MarkOk(c: Channel) {
    c.wmSuspended ==> c.high > 0 && |c.input| >= c.high
  }

  ghost predicate Within(c: Channel) {
    c.high == 0 || |c.input| <= c.high
  }

  /** Bytes wait in the output between willing ends only when the input is full. */
  ghost predicate NoneWaits(c: Channel) {
    Willing(c) && c.output != [] ==> c.high > 0 && |c.input| >= c.high
  }

  /** What a transfer does about the watermark and about waiting bytes. */
  lemma TalkedServes(c: Channel)
    requires MarkOk(c)
    ensures var d := Talked(c);
      d.high == c.high && (Within(c) ==> Within(d)) && NoneWaits(d) && MarkOk(d)
  {
    Moved(c.input, c.output, c.high, false);
  }

  lemma FlushServes(c: Channel)
    requires MarkOk(c)
    ensures NoneWaits(Delivered(c, true)) && MarkOk(Delivered(c, true))
  {
    Moved(c.input, c.output, c.high, true);
  }

  /**
   * Writing is enabled while it is suspended, and that makes the ends willing although bytes wait
   * and there is room for them: the backend is not told.
   */
  ghost predicate Unasked(c: Channel, step: Step) {
    && step.EnableWrite? && c.writeSuspended && c.enabledRead && !c.readSuspended
    && c.output != [] && (c.high == 0 || |c.input| < c.high)
  }

  lemma ReadServes(c: Channel, n: nat)
    requires NoneWaits(c) && MarkOk(c)
    ensures NoneWaits(Next(c, ReadBytes(n)).0) && MarkOk(Next(c, ReadBytes(n)).0)
  {
    TalkedServes(c.(input := c.input[Min(n, |c.input|)..], wmSuspended := false));
  }

  lemma MarkServes(c: Channel, high: nat)
    requires NoneWaits(c) && MarkOk(c)
    ensures NoneWaits(Marked(c, high)) && MarkOk(Marked(c, high))
  {
    TalkedServes(c.(high := high, wmSuspended := false));
  }

  lemma FlagServes(c: Channel, step: Step)
    requires NoneWaits(c) && MarkOk(c) && !step.Written? && !step.ReadBytes? && !step.SetHigh? && !step.Flush?
    ensures NoneWaits(Next(c, step).0) <==> !Unasked(c, step)
    ensures MarkOk(Next(c, step).0)
  {
    TalkedServes(Flagged(c, step));
  }

  /** Every other step leaves no bytes waiting between willing ends that have room. */
  lemma NoneLeftWaiting(c: Channel, step: Step)
    requires NoneWaits(c) && MarkOk(c)
    ensures NoneWaits(Next(c, step).0) <==> !Unasked(c, step)
    ensures MarkOk(Next(c, step).0)
  {
    match step {
      case Written(data) => TalkedServes(c.(output := c.output + data));
      case ReadBytes(n) => ReadServes(c, n);
      case SetHigh(high) => MarkServes(c, high);
      case Flush => FlushServes(c);
      case _ => FlagServes(c, step);
    }
  }

  /** No step of the run is such an enabling. */
  ghost predicate AllAsked(steps: seq<Step>) {
    forall i :: 0 <= i < |steps| ==> !Unasked(Ran(NEW_CHANNEL, steps[..i]).0, steps[i])
  }

  /** So in every run without it nothing is left waiting, however the watermark is moved and bytes are read. */
  lemma {:induction false} NeverWaits(steps: seq<Step>)
    requires AllAsked(steps)
    ensures NoneWaits(Ran(NEW_CHANNEL, steps).0) && MarkOk(Ran(NEW_CHANNEL, steps).0)
  {
    if steps != [] {
      var n := |steps| - 1;
      assert forall i :: 0 <= i < n ==> steps[..n][..i] == steps[..i];
      NeverWaits(steps[..n]);
      NoneLeftWaiting(Ran(NEW_CHANNEL, steps[..n]).0, steps[n]);
    }
  }

  lemma RanOn(steps: seq<Step>, step: Step, c: Channel, got: seq<byte>, d: Channel, data: seq<byte>)
    requires Ran(NEW_CHANNEL, steps) == (c, got) && Next(c, step) == (d, data)
    ensures Ran(NEW_CHANNEL, steps + [step]) == (d, got + data)
  {
    assert (steps + [step])[..|steps|] == steps;
  }

  /** A step in which nothing is read. */
  lemma RanQuietly(steps: seq<Step>, step: Step, c: Channel, d: Channel)
    requires Ran(NEW_CHANNEL, steps) == (c, []) && Next(c, step) == (d, [])
    ensures Ran(NEW_CHANNEL, steps + [step]) == (d, [])
  {
    var none: seq<byte> := [];
    assert none + none == none;
    RanOn(steps, step, c, none, d, none);
  }

  lemma WriterSuspended() returns (steps: seq<Step>)
    ensures steps == [DisableWrite, SuspendWrite, EnableRead]
    ensures Ran(NEW_CHANNEL, steps) == (NEW_CHANNEL.(enabledWrite := false, writeSuspended := true, enabledRead := true), [])
  {
    var c1 := NEW_CHANNEL.(enabledWrite := false);
    var c2 := c1.(writeSuspended := true);
    steps := [];
    RanQuietly(steps, DisableWrite, NEW_CHANNEL, c1);
    steps := steps + [DisableWrite];
    RanQuietly(steps, SuspendWrite, c1, c2);
    steps := steps + [SuspendWrite];
    RanQuietly(steps, EnableRead, c2, c2.(enabledRead := true));
    steps := steps + [EnableRead];
  }

  /** A run that shows the exception: the byte waits between willing ends, with no limit on the input. */
  lemma EnabledUnasked() returns (steps: seq<Step>)
    ensures steps == [DisableWrite, SuspendWrite, EnableRead, Written([1]), EnableWrite]
    ensures var c := Ran(NEW_CHANNEL, steps).0;
      c.input == [] && c.output == [1] && Willing(c) && !c.wmSuspended && c.high == 0 && !NoneWaits(c)
  {
    var c3 := NEW_CHANNEL.(enabledWrite := false, writeSuspended := true, enabledRead := true);
    var c4 := c3.(output := c3.output + [1]);
    steps := WriterSuspended();
    RanQuietly(steps, Written([1]), c3, c4);
    steps := steps + [Written([1])];
    RanQuietly(steps, EnableWrite, c4, c4.(enabledWrite := true));
    steps := steps + [EnableWrite];
  }

  lemma WriteTwo(c: Channel, d: Channel)
    requires c == NEW_CHANNEL.(enabledRead := true, high := 1)
    requires d == c.(input := [1], output := [2], wmSuspended := true)
    ensures Next(c, Written([1, 2])) == (d, [])
  {
    var data: seq<byte> := [1, 2];
    assert c.output + data == data && c.input + data[..1] == [1] && data[1..] == [2];
  }

  lemma ReadOne(c: Channel, d: Channel)
    requires c == NEW_CHANNEL.(enabledRead := true, high := 1, input := [1], output := [2], wmSuspended := true)
    requires d == c.(input := [2], output := [], wmSuspended := true)
    ensures Next(c, ReadBytes(1)) == (d, [1])
  {
    var empty: seq<byte> := [];
    assert c.input[..1] == [1] && c.input[1..] == empty;
    assert empty + c.output[..1] == [2] && c.output[1..] == empty;
  }

  lemma MarkEmpty(c: Channel, high: nat)
    requires c.input == [] && c.output == [] && !c.wmSuspended && high > 0
    ensures Next(c, SetHigh(high)) == (c.(high := high), [])
  {
    var none: seq<byte> := [];
    assert c.input + c.output[..0] == none && c.output[0..] == none;
  }

  lemma EnableEmpty(c: Channel)
    requires c.input == [] && c.output == []
    ensures Next(c, EnableRead) == (c.(enabledRead := true), [])
  {
    var none: seq<byte> := [];
    assert c.input + c.output[..0] == none && c.output[0..] == none;
  }

  lemma UnderMark() returns (steps: seq<Step>)
    ensures steps == [EnableRead, SetHigh(1)]
    ensures Ran(NEW_CHANNEL, steps) == (NEW_CHANNEL.(enabledRead := true, high := 1), [])
  {
    var c1 := NEW_CHANNEL.(enabledRead := true);
    EnableEmpty(NEW_CHANNEL);
    RanQuietly([], EnableRead, NEW_CHANNEL, c1);
    steps := [] + [EnableRead];
    MarkEmpty(c1, 1);
    RanQuietly(steps, SetHigh(1), c1, c1.(high := 1));
    steps := steps + [SetHigh(1)];
  }

  lemma FullUnderMark() returns (steps: seq<Step>)
    ensures steps == [EnableRead, SetHigh(1), Written([1, 2])]
    ensures Ran(NEW_CHANNEL, steps) == (NEW_CHANNEL.(enabledRead := true, high := 1, input := [1], output := [2], wmSuspended := true), [])
  {
    var c := NEW_CHANNEL.(enabledRead := true, high := 1);
    var d := c.(input := [1], output := [2], wmSuspended := true);
    steps := UnderMark();
    WriteTwo(c, d);
    RanQuietly(steps, Written([1, 2]), c, d);
    steps := steps + [Written([1, 2])];
  }

  /** And one in which reading makes room: the byte that waited goes on into the input. */
  lemma ReadingResumes() returns (steps: seq<Step>)
    ensures steps == [EnableRead, SetHigh(1), Written([1, 2]), ReadBytes(1)]
    ensures var (c, got) := Ran(NEW_CHANNEL, steps);
      got == [1] && c.input == [2] && c.output == []
  {
    var c := NEW_CHANNEL.(enabledRead := true, high := 1, input := [1], output := [2], wmSuspended := true);
    var d := c.(input := [2], output := []);
    var none, one: seq<byte> := [], [1];
    steps := FullUnderMark();
    ReadOne(c, d);
    assert none + one == one;
    RanOn(steps, ReadBytes(1), c, none, d, one);
    steps := steps + [ReadBytes(1)];
  }

  /** Neither flushes nor changes of the watermark. */
  ghost predicate Normal(steps: seq<Step>) {
    forall i :: 0 <= i < |steps| ==> !steps[i].Flush? && !steps[i].SetHigh?
  }

  lemma NextWithin(c: Channel, step: Step)
    requires MarkOk(c) && Within(c) && !step.Flush? && !step.SetHigh?
    ensures MarkOk(Next(c, step).0) && Within(Next(c, step).0) && Next(c, step).0.high == c.high
  {
    if step.Written? {
      TalkedServes(c.(output := c.output + step.data));
    } else if step.ReadBytes? {
      TalkedServes(c.(input := c.input[Min(step.n, |c.input|)..], wmSuspended := false));
    } else {
      TalkedServes(Flagged(c, step));
    }
  }

  /** An input within its watermark stays there in every run of normal steps. */
  lemma {:induction false} StaysWithin(c: Channel, steps: seq<Step>)
    requires MarkOk(c) && Within(c) && Normal(steps)
    ensures MarkOk(Ran(c, steps).0) && Within(Ran(c, steps).0) && Ran(c, steps).0.high == c.high
  {
    if steps != [] {
      var n := |steps| - 1;
      StaysWithin(c, steps[..n]);
      NextWithin(Ran(c, steps[..n]).0, steps[n]);
    }
  }

  /** The channel from one end to the other. */
  ghost function View(src: PairEnd, dst: PairEnd, vso: seq<seq<byte>>, vsi: seq<seq<byte>>): Channel
    reads src`enabledWrite, src`writeSuspended, dst`enabledRead, dst`readSuspended, dst`wmSuspended, dst`high
  {
    Channel(Flatten(vsi), Flatten(vso), src.enabledWrite, dst.enabledRead,
            src.writeSuspended, dst.readSuspended, dst.wmSuspended, dst.high)
  }

  /** be_pair_wants_to_talk. */
  predicate WantsToTalk(src: PairEnd, dst: PairEnd)
    reads src`enabledWrite, dst`enabledRead, dst`readSuspended, dst`wmSuspended, src.output`totalLen
  {
    src.enabledWrite && dst.enabledRead && !(dst.readSuspended || dst.wmSuspended) && src.output.totalLen > 0
  }

  /**
   * bufferevent_inbuf_wm_cb, which the input calls when it has changed; `enable` is whether
   * bufferevent_unsuspend_read calls be_pair_enable.
   */
  method WatermarkCallback(dst: PairEnd, ghost vsi: seq<seq<byte>>) returns (enable: bool)
    requires dst.input.totalLen == |Flatten(vsi)|
    modifies dst`wmSuspended
    ensures dst.wmSuspended <==> |Flatten(vsi)| >= dst.high
    ensures enable <==> !dst.wmSuspended && !dst.readSuspended && dst.enabledRead
  {
    enable := false;
    if dst.input.totalLen >= dst.high {
      dst.wmSuspended := true;
    } else {
      dst.wmSuspended := false;
      enable := !dst.readSuspended && dst.enabledRead;
    }
  }

  /**
   * The moves of be_pair_transfer, and the watermark callback when bytes have come in. The callback
   * may ask for another transfer, but only when nothing is left to move.
   */
  method Deliver(src: PairEnd, ghost cso: seq<Chain>, ghost vso: seq<seq<byte>>,
                 dst: PairEnd, ghost csi: seq<Chain>, ghost vsi: seq<seq<byte>>, ignoreWm: bool)
    returns (ghost cso': seq<Chain>, ghost vso': seq<seq<byte>>, ghost csi': seq<Chain>, ghost vsi': seq<seq<byte>>)
    requires Tight(src.output, cso, vso) && Tight(dst.input, csi, vsi)
    requires src.output != dst.input && Members(cso) !! Members(csi)
    modifies dst`wmSuspended, src.output, dst.input, Members(cso), Members(csi)
    ensures Tight(src.output, cso', vso') && Tight(dst.input, csi', vsi') && Members(cso') !! Members(csi')
    ensures fresh(Members(cso') + Members(csi') - (Members(cso) + Members(csi)))
    ensures View(src, dst, vso', vsi') == Delivered(old(View(src, dst, vso, vsi)), ignoreWm)
  {
    var before := dst.input.totalLen;
    ghost var c := View(src, dst, vso, vsi);
    cso', vso', csi', vsi' := MoveShare(src.output, cso, vso, dst.input, csi, vsi, dst.high, ignoreWm);
    if dst.high > 0 && dst.input.totalLen != before {
      NothingAsked(Flatten(vsi), Flatten(vso), dst.high, ignoreWm);
      var enable := WatermarkCallback(dst, vsi');
      assert enable ==> src.output.totalLen == 0;
    }
    DeliveredIs(c, View(src, dst, vso', vsi'), ignoreWm);
  }

  lemma DeliveredIs(c: Channel, d: Channel, ignoreWm: bool)
    requires var n := Share(c.high, |c.input|, |c.output|, ignoreWm);
      d == c.(input := c.input + c.output[..n], output := c.output[n..],
              wmSuspended := if n > 0 && c.high > 0 then |c.input| + n >= c.high else c.wmSuspended)
    ensures d == Delivered(c, ignoreWm)
  {
  }

  /** When the input is below the watermark after a transfer, the output is empty. */
  lemma NothingAsked(input: seq<byte>, output: seq<byte>, high: nat, ignoreWm: bool)
    ensures var n := Share(high, |input|, |output|, ignoreWm);
      |input + output[..n]| == |input| + n && (n > 0 && |input| + n < high ==> output[n..] == [])
  {
  }

  /** evbuffer_freeze and evbuffer_unfreeze of the two buffers that a transfer is about. */
  method Freeze(src: PairEnd, dst: PairEnd, freeze: bool)
    modifies src`outputFrozen, dst`inputFrozen
    ensures src.outputFrozen == dst.inputFrozen == freeze
  {
    src.outputFrozen := freeze;
    dst.inputFrozen := freeze;
  }

  /**
   * be_pair_transfer: bytes go from the front of the one end's output to the end of the other's
   * input, in order. A normal transfer stops at the high watermark, and otherwise moves everything.
   */
  method Transfer(src: PairEnd, ghost cso: seq<Chain>, ghost vso: seq<seq<byte>>,
                  dst: PairEnd, ghost csi: seq<Chain>, ghost vsi: seq<seq<byte>>, ignoreWm: bool)
    returns (ghost cso': seq<Chain>, ghost vso': seq<seq<byte>>, ghost csi': seq<Chain>, ghost vsi': seq<seq<byte>>)
    requires Tight(src.output, cso, vso) && Tight(dst.input, csi, vsi)
    requires src.output != dst.input && Members(cso) !! Members(csi)
    modifies src`outputFrozen, dst`inputFrozen, dst`wmSuspended, src.output, dst.input, Members(cso), Members(csi)
    ensures Tight(src.output, cso', vso') && Tight(dst.input, csi', vsi') && Members(cso') !! Members(csi')
    ensures fresh(Members(cso') + Members(csi') - (Members(cso) + Members(csi)))
    ensures src.outputFrozen && dst.inputFrozen
    ensures View(src, dst, vso', vsi') == Delivered(old(View(src, dst, vso, vsi)), ignoreWm)
  {
    Freeze(src, dst, false);
    cso', vso', csi', vsi' := Deliver(src, cso, vso, dst, csi, vsi, ignoreWm);
    Freeze(src, dst, true);
  }

  /** A normal transfer, if both ends want it. */
  method Talk(src: PairEnd, ghost cso: seq<Chain>, ghost vso: seq<seq<byte>>,
              dst: PairEnd, ghost csi: seq<Chain>, ghost vsi: seq<seq<byte>>)
    returns (ghost cso': seq<Chain>, ghost vso': seq<seq<byte>>, ghost csi': seq<Chain>, ghost vsi': seq<seq<byte>>)
    requires Tight(src.output, cso, vso) && Tight(dst.input, csi, vsi)
    requires src.output != dst.input && Members(cso) !! Members(csi)
    modifies src`outputFrozen, dst`inputFrozen, dst`wmSuspended, src.output, dst.input, Members(cso), Members(csi)
    ensures Tight(src.output, cso', vso') && Tight(dst.input, csi', vsi') && Members(cso') !! Members(csi')
    ensures fresh(Members(cso') + Members(csi') - (Members(cso) + Members(csi)))
    ensures View(src, dst, vso', vsi') == Talked(old(View(src, dst, vso, vsi)))
  {
    cso', vso', csi', vsi' := cso, vso, csi, vsi;
    if WantsToTalk(src, dst) {
      cso', vso', csi', vsi' := Transfer(src, cso, vso, dst, csi, vsi, false);
    } else {
      assert Flatten(vso) == [] ==> Flatten(vsi) + [] == Flatten(vsi);
    }
  }

  /** evbuffer_add to the output of an end, and the callback on it, be_pair_outbuf_cb. */
  method Write(src: PairEnd, ghost cso: seq<Chain>, ghost vso: seq<seq<byte>>,
               dst: PairEnd, ghost csi: seq<Chain>, ghost vsi: seq<seq<byte>>, data: seq<byte>)
    returns (ghost cso': seq<Chain>, ghost vso': seq<seq<byte>>, ghost csi': seq<Chain>, ghost vsi': seq<seq<byte>>)
    requires Tight(src.output, cso, vso) && Tight(dst.input, csi, vsi)
    requires src.output != dst.input && Members(cso) !! Members(csi)
    modifies src`outputFrozen, dst`inputFrozen, dst`wmSuspended, src.output, dst.input, Members(cso), Members(csi)
    ensures Tight(src.output, cso', vso') && Tight(dst.input, csi', vsi') && Members(cso') !! Members(csi')
    ensures fresh(Members(cso') + Members(csi') - (Members(cso) + Members(csi)))
    ensures View(src, dst, vso', vsi') == Next(old(View(src, dst, vso, vsi)), Written(data)).0
  {
    EvbufferRuns.TightMeans(vso);
    cso', vso' := EvbufferAppend.Add(src.output, cso, vso, data);
    csi', vsi' := csi, vsi;
    assert Tight(dst.input, csi, vsi) && Members(cso') !! Members(csi);
    if |data| > 0 {
      cso', vso', csi', vsi' := Talk(src, cso', vso', dst, csi, vsi);
    }
  }

  /** evbuffer_remove from the input of an end, without the callback on it. Nothing is taken from the output. */
  method Take(src: PairEnd, ghost cso: seq<Chain>, ghost vso: seq<seq<byte>>,
              dst: PairEnd, ghost csi: seq<Chain>, ghost vsi: seq<seq<byte>>, n: nat)
    returns (data: seq<byte>, ghost csi': seq<Chain>, ghost vsi': seq<seq<byte>>)
    requires Tight(src.output, cso, vso) && Tight(dst.input, csi, vsi)
    requires src.output != dst.input && Members(cso) !! Members(csi)
    modifies dst.input, Members(csi)
    ensures Tight(src.output, cso, vso) && Tight(dst.input, csi', vsi') && Members(cso) !! Members(csi')
    ensures Members(csi') <= Members(csi)
    ensures var m := Min(n, |Flatten(vsi)|); data == Flatten(vsi)[..m] && Flatten(vsi') == Flatten(vsi)[m..]
  {
    data, csi', vsi' := TakeBytes(dst.input, csi, vsi, n);
    CutAt(Flatten(vsi), data, Flatten(vsi'));
  }

  lemma CutAt(all: seq<byte>, data: seq<byte>, rest: seq<byte>)
    requires data + rest == all
    ensures data == all[..|data|] && rest == all[|data|..]
  {
  }

  /** The callbacks of the input when bytes have been taken out of it: the one for the watermark, if there is one. */
  method NoteTaken(src: PairEnd, ghost cso: seq<Chain>, ghost vso: seq<seq<byte>>,
                   dst: PairEnd, ghost csi: seq<Chain>, ghost vsi: seq<seq<byte>>)
    returns (ghost cso': seq<Chain>, ghost vso': seq<seq<byte>>, ghost csi': seq<Chain>, ghost vsi': seq<seq<byte>>)
    requires Tight(src.output, cso, vso) && Tight(dst.input, csi, vsi)
    requires src.output != dst.input && Members(cso) !! Members(csi)
    modifies src`outputFrozen, dst`inputFrozen, dst`wmSuspended, src.output, dst.input, Members(cso), Members(csi)
    ensures Tight(src.output, cso', vso') && Tight(dst.input, csi', vsi') && Members(cso') !! Members(csi')
    ensures fresh(Members(cso') + Members(csi') - (Members(cso) + Members(csi)))
    ensures View(src, dst, vso', vsi') == InputTaken(old(View(src, dst, vso, vsi)))
  {
    cso', vso', csi', vsi' := cso, vso, csi, vsi;
    if dst.high > 0 {
      var enable := WatermarkCallback(dst, vsi);
      if enable {
        cso', vso', csi', vsi' := Talk(src, cso, vso, dst, csi, vsi);
      }
    }
  }

  /** evbuffer_remove from the input of an end, and the watermark callback, which may let more bytes in. */
  method Read(src: PairEnd, ghost cso: seq<Chain>, ghost vso: seq<seq<byte>>,
              dst: PairEnd, ghost csi: seq<Chain>, ghost vsi: seq<seq<byte>>, n: nat)
    returns (data: seq<byte>,
             ghost cso': seq<Chain>, ghost vso': seq<seq<byte>>, ghost csi': seq<Chain>, ghost vsi': seq<seq<byte>>)
    requires Tight(src.output, cso, vso) && Tight(dst.input, csi, vsi)
    requires src.output != dst.input && Members(cso) !! Members(csi)
    modifies src`outputFrozen, dst`inputFrozen, dst`wmSuspended, src.output, dst.input, Members(cso), Members(csi)
    ensures Tight(src.output, cso', vso') && Tight(dst.input, csi', vsi') && Members(cso') !! Members(csi')
    ensures fresh(Members(cso') + Members(csi') - (Members(cso) + Members(csi)))
    ensures (View(src, dst, vso', vsi'), data) == Next(old(View(src, dst, vso, vsi)), ReadBytes(n))
  {
    cso', vso' := cso, vso;
    data, csi', vsi' := Take(src, cso, vso, dst, csi, vsi, n);
    if data != [] {
      cso', vso', csi', vsi' := NoteTaken(src, cso, vso, dst, csi', vsi');
    }
  }

  /** bufferevent_setwatermark for reading, up to what bufferevent_unsuspend_read asks of the backend. */
  method SetMark(dst: PairEnd, high: nat, ghost vsi: seq<seq<byte>>) returns (enable: bool)
    requires dst.input.totalLen == |Flatten(vsi)|
    modifies dst`high, dst`wmSuspended
    ensures dst.high == high
    ensures var size := |Flatten(vsi)|;
      dst.wmSuspended == if high > 0 && size > high then true else if high > 0 && size == high then old(dst.wmSuspended) else false
    ensures enable <==> (high == 0 || |Flatten(vsi)| < high) && !dst.readSuspended && dst.enabledRead
  {
    dst.high := high;
    var unsuspend := high == 0;
    if high > 0 {
      if dst.input.totalLen > high {
        dst.wmSuspended := true;
      } else {
        unsuspend := dst.input.totalLen < high;
      }
    }
    if unsuspend {
      dst.wmSuspended := false;
    }
    enable := unsuspend && !dst.readSuspended && dst.enabledRead;
  }

  /** The writer's flags; `enable` is whether be_pair_enable is called for writing. */
  method WriterFlags(src: PairEnd, step: Step) returns (enable: bool)
    modifies src`enabledWrite, src`writeSuspended
    ensures src.enabledWrite == if step.EnableWrite? then true else if step.DisableWrite? then false else old(src.enabledWrite)
    ensures src.writeSuspended == if step.SuspendWrite? then true else if step.UnsuspendWrite? then false else old(src.writeSuspended)
    ensures enable <==> (step.EnableWrite? && !src.writeSuspended) || (step.UnsuspendWrite? && src.enabledWrite)
  {
    enable := false;
    match step {
      case EnableWrite =>
        src.enabledWrite := true;
        enable := !src.writeSuspended;
      case DisableWrite => src.enabledWrite := false;
      case SuspendWrite => src.writeSuspended := true;
      case UnsuspendWrite =>
        src.writeSuspended := false;
        enable := src.enabledWrite;
      case _ =>
    }
  }

  /** The reader's flags; `enable` is whether be_pair_enable is called for reading. */
  method ReaderFlags(dst: PairEnd, step: Step) returns (enable: bool)
    modifies dst`enabledRead, dst`readSuspended
    ensures dst.enabledRead == if step.EnableRead? then true else if step.DisableRead? then false else old(dst.enabledRead)
    ensures dst.readSuspended == if step.SuspendRead? then true else if step.UnsuspendRead? then false else old(dst.readSuspended)
    ensures enable <==> !dst.wmSuspended && !dst.readSuspended && dst.enabledRead && (step.EnableRead? || step.UnsuspendRead?)
  {
    enable := false;
    match step {
      case EnableRead =>
        dst.enabledRead := true;
        enable := !(dst.readSuspended || dst.wmSuspended);
      case DisableRead => dst.enabledRead := false;
      case SuspendRead => dst.readSuspended := true;
      case UnsuspendRead =>
        dst.readSuspended := false;
        enable := !dst.wmSuspended && dst.enabledRead;
      case _ =>
    }
  }

  /** The flags of bufferevent_enable, _disable, _suspend_read and so on; `enable` is whether they call be_pair_enable. */
  method Flags(src: PairEnd, dst: PairEnd, step: Step, ghost vso: seq<seq<byte>>, ghost vsi: seq<seq<byte>>) returns (enable: bool)
    modifies src`enabledWrite, src`writeSuspended, dst`enabledRead, dst`readSuspended
    ensures View(src, dst, vso, vsi) == Flagged(old(View(src, dst, vso, vsi)), step)
    ensures enable <==> Enables(old(View(src, dst, vso, vsi)), step)
  {
    var enableWrite := WriterFlags(src, step);
    var enableRead := ReaderFlags(dst, step);
    enable := enableWrite || enableRead;
  }

  /** bufferevent_enable, _disable, _suspend_read and so on, and the transfer that they set off: be_pair_enable. */
  method FlagStep(src: PairEnd, ghost cso: seq<Chain>, ghost vso: seq<seq<byte>>,
                  dst: PairEnd, ghost csi: seq<Chain>, ghost vsi: seq<seq<byte>>, step: Step)
    returns (ghost cso': seq<Chain>, ghost vso': seq<seq<byte>>, ghost csi': seq<Chain>, ghost vsi': seq<seq<byte>>)
    requires Tight(src.output, cso, vso) && Tight(dst.input, csi, vsi)
    requires src.output != dst.input && Members(cso) !! Members(csi)
    requires !step.Written? && !step.ReadBytes? && !step.SetHigh? && !step.Flush?
    modifies src, dst, src.output, dst.input, Members(cso), Members(csi)
    ensures Tight(src.output, cso', vso') && Tight(dst.input, csi', vsi') && Members(cso') !! Members(csi')
    ensures fresh(Members(cso') + Members(csi') - (Members(cso) + Members(csi)))
    ensures View(src, dst, vso', vsi') == Next(old(View(src, dst, vso, vsi)), step).0
  {
    cso', vso', csi', vsi' := cso, vso, csi, vsi;
    var enable := Flags(src, dst, step, vso, vsi);
    if enable {
      cso', vso', csi', vsi' := Talk(src, cso, vso, dst, csi, vsi);
    }
  }

  /** bufferevent_setwatermark, and the transfer that it may set off. */
  method MarkStep(src: PairEnd, ghost cso: seq<Chain>, ghost vso: seq<seq<byte>>,
                  dst: PairEnd, ghost csi: seq<Chain>, ghost vsi: seq<seq<byte>>, high: nat)
    returns (ghost cso': seq<Chain>, ghost vso': seq<seq<byte>>, ghost csi': seq<Chain>, ghost vsi': seq<seq<byte>>)
    requires Tight(src.output, cso, vso) && Tight(dst.input, csi, vsi)
    requires src.output != dst.input && Members(cso) !! Members(csi)
    modifies src`outputFrozen, dst`inputFrozen, dst`high, dst`wmSuspended, src.output, dst.input, Members(cso), Members(csi)
    ensures Tight(src.output, cso', vso') && Tight(dst.input, csi', vsi') && Members(cso') !! Members(csi')
    ensures fresh(Members(cso') + Members(csi') - (Members(cso) + Members(csi)))
    ensures View(src, dst, vso', vsi') == Marked(old(View(src, dst, vso, vsi)), high)
  {
    cso', vso', csi', vsi' := cso, vso, csi, vsi;
    var enable := SetMark(dst, high, vsi);
    if enable {
      cso', vso', csi', vsi' := Talk(src, cso, vso, dst, csi, vsi);
    }
  }

  /** One step; what is read comes out. */
  method OneStep(src: PairEnd, ghost cso: seq<Chain>, ghost vso: seq<seq<byte>>,
                 dst: PairEnd, ghost csi: seq<Chain>, ghost vsi: seq<seq<byte>>, step: Step)
    returns (data: seq<byte>, ghost cso': seq<Chain>, ghost vso': seq<seq<byte>>, ghost csi': seq<Chain>, ghost vsi': seq<seq<byte>>)
    requires Tight(src.output, cso, vso) && Tight(dst.input, csi, vsi)
    requires src.output != dst.input && Members(cso) !! Members(csi)
    modifies src, dst, src.output, dst.input, Members(cso), Members(csi)
    ensures Tight(src.output, cso', vso') && Tight(dst.input, csi', vsi') && Members(cso') !! Members(csi')
    ensures fresh(Members(cso') + Members(csi') - (Members(cso) + Members(csi)))
    ensures (View(src, dst, vso', vsi'), data) == Next(old(View(src, dst, vso, vsi)), step)
  {
    data := [];
    if step.Written? {
      cso', vso', csi', vsi' := Write(src, cso, vso, dst, csi, vsi, step.data);
    } else if step.ReadBytes? {
      data, cso', vso', csi', vsi' := Read(src, cso, vso, dst, csi, vsi, step.n);
    } else if step.Flush? {
      cso', vso', csi', vsi' := Transfer(src, cso, vso, dst, csi, vsi, true);
    } else if step.SetHigh? {
      cso', vso', csi', vsi' := MarkStep(src, cso, vso, dst, csi, vsi, step.high);
    } else {
      cso', vso', csi', vsi' := FlagStep(src, cso, vso, dst, csi, vsi, step);
    }
  }

  /** Every run on a new pair does what the run on the channel does. */
  method Run(steps: seq<Step>)
    returns (got: seq<byte>, src: PairEnd, dst: PairEnd,
             ghost cso: seq<Chain>, ghost vso: seq<seq<byte>>, ghost csi: seq<Chain>, ghost vsi: seq<seq<byte>>)
    ensures Tight(src.output, cso, vso) && Tight(dst.input, csi, vsi)
    ensures View(src, dst, vso, vsi) == Ran(NEW_CHANNEL, steps).0
    ensures got == Ran(NEW_CHANNEL, steps).1
  {
    src := new PairEnd();
    dst := new PairEnd();
    got, cso, vso, csi, vsi := [], [], [], [], [];
    for i := 0 to |steps|
      invariant fresh(src) && fresh(dst) && fresh(src.output) && fresh(dst.input) && src.output != dst.input
      invariant fresh(Members(cso) + Members(csi)) && Members(cso) !! Members(csi)
      invariant Tight(src.output, cso, vso) && Tight(dst.input, csi, vsi)
      invariant (View(src, dst, vso, vsi), got) == Ran(NEW_CHANNEL, steps[..i])
    {
      assert steps[..i + 1][..i] == steps[..i];
      var data;
      data, cso, vso, csi, vsi := OneStep(src, cso, vso, dst, csi, vsi, steps[i]);
      got := got + data;
    }
    assert steps[..|steps|] == steps;
  }
}
