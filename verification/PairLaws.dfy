/** When bytes pass from one end of a pair to the other, said without the function that moves them. */
module PairLaws {
  import opened Bytes
  import opened EvbufferDrain
  import opened Pair

  /** The bytes that a step adds to the writer's output. */
  function Fed(step: Step): seq<byte> {
    if step.Written? then step.data else []
  }

  /** The step lets bytes out of the writer's output. */
  ghost predicate Arrives(c: Channel, step: Step) {
    Next(c, step).0.output != c.output + Fed(step)
  }

  /** Nothing takes bytes out of an output but their arrival in the input, in order. */
  lemma ArrivesInOrder(c: Channel, step: Step)
    ensures var (d, data) := Next(c, step);
      var came := |c.output| + |Fed(step)| - |d.output|;
      && 0 <= came && data + d.input == c.input + (c.output + Fed(step))[..came]
      && d.output == (c.output + Fed(step))[came..]
      && (Arrives(c, step) <==> came > 0)
  {
    NextKeeps(c, step);
    var (d, data) := Next(c, step);
    var all := c.output + Fed(step);
    OutputShrinks(c, step);
    var came := |all| - |d.output|;
    Assoc(data, d.input, d.output);
    assert c.input + c.output + Fed(step) == c.input + all by {
      Assoc(c.input, c.output, Fed(step));
    }
    assert all == all[..came] + all[came..];
    Assoc(c.input, all[..came], all[came..]);
    assert (data + d.input) + d.output == (c.input + all[..came]) + all[came..];
    SameTails(data + d.input, c.input + all[..came], d.output, all[came..]);
  }

  lemma SameTails(a: seq<byte>, b: seq<byte>, s: seq<byte>, t: seq<byte>)
    requires a + s == b + t && s == t
    ensures a == b
  {
    assert a == (a + s)[..|a|] && b == (b + t)[..|b|];
  }

  /** The second string is the end of the first. */
  predicate EndsWith(all: seq<byte>, end: seq<byte>) {
    |end| <= |all| && end == all[|all| - |end|..]
  }

  lemma TalkedShrinks(c: Channel)
    ensures EndsWith(c.output, Talked(c).output)
  {
  }

  lemma ReadShrinks(c: Channel, n: nat)
    ensures EndsWith(c.output, Next(c, ReadBytes(n)).0.output)
  {
    TalkedShrinks(c.(input := c.input[Min(n, |c.input|)..], wmSuspended := false));
  }

  lemma WriteShrinks(c: Channel, data: seq<byte>)
    ensures EndsWith(c.output + data, Next(c, Written(data)).0.output)
  {
    TalkedShrinks(c.(output := c.output + data));
  }

  lemma MarkShrinks(c: Channel, high: nat)
    ensures EndsWith(c.output, Marked(c, high).output)
  {
    if high > 0 && |c.input| >= high {
      assert Marked(c, high).output == c.output[0..];
    } else {
      var d := c.(high := high, wmSuspended := false);
      assert Marked(c, high) == Talked(d) && d.output == c.output;
      TalkedShrinks(d);
    }
  }

  lemma FlagShrinks(c: Channel, step: Step)
    requires !step.Written? && !step.ReadBytes? && !step.SetHigh? && !step.Flush?
    ensures EndsWith(c.output, Next(c, step).0.output)
  {
    var f := Flagged(c, step);
    FlaggedSame(c, step);
    TalkedShrinks(f);
    assert Next(c, step).0 == if Enables(c, step) then Talked(f) else f;
  }

  lemma OutputShrinks(c: Channel, step: Step)
    ensures EndsWith(c.output + Fed(step), Next(c, step).0.output)
  {
    assert !step.Written? ==> c.output + Fed(step) == c.output;
    match step {
      case Written(data) => WriteShrinks(c, data);
      case ReadBytes(n) => ReadShrinks(c, n);
      case SetHigh(high) => MarkShrinks(c, high);
      case Flush =>
      case _ => FlagShrinks(c, step);
    }
  }

  /**
   * But for a flush, bytes arrive only at a reader that is enabled and not suspended, from a writer that
   * is enabled; what has been written, and what enabling lets through, only if the watermark does not
   * suspend reading before.
   */
  lemma ArrivesWilling(c: Channel, step: Step)
    requires !step.Flush? && Arrives(c, step)
    ensures var d := Next(c, step).0; d.enabledWrite && d.enabledRead && !d.readSuspended
    ensures !step.ReadBytes? && !step.SetHigh? ==> !c.wmSuspended
    ensures step.EnableWrite? || step.UnsuspendWrite? ==> !Next(c, step).0.writeSuspended
  {
    assert c.output + [] == c.output;
  }

  /** The steps that ask the backend, or let bytes pass without asking. */
  predicate Asks(step: Step) {
    step.UnsuspendWrite? || step.EnableRead? || step.UnsuspendRead? || step.Flush? || (step.Written? && step.data != [])
  }

  /** Bytes that were left waiting between willing ends go out with the next such step. */
  lemma WaitingGoesOut(c: Channel, step: Step)
    requires MarkOk(c) && Asks(step)
    ensures NoneWaits(Next(c, step).0) && MarkOk(Next(c, step).0)
  {
    match step {
      case Written(data) => TalkedServes(c.(output := c.output + data));
      case Flush => FlushServes(c);
      case _ => TalkedServes(Flagged(c, step));
    }
  }

  /** A flush moves everything, or, to an input below its watermark, what there is room for. */
  lemma FlushMoves(c: Channel)
    ensures var d := Next(c, Flush).0;
      if 0 < c.high && |c.input| < c.high < |c.input| + |c.output| then |d.input| == c.high else d.output == []
  {
    Moved(c.input, c.output, c.high, true);
  }

  /** The watermark suspends reading exactly when the input has reached it. */
  ghost predicate MarkExact(c: Channel) {
    c.wmSuspended <==> c.high > 0 && |c.input| >= c.high
  }

  lemma DeliveredMarks(c: Channel, ignoreWm: bool)
    requires MarkExact(c)
    ensures MarkExact(Delivered(c, ignoreWm))
  {
    var n := Share(c.high, |c.input|, |c.output|, ignoreWm);
    assert |c.input + c.output[..n]| == |c.input| + n;
  }

  lemma TalkedMarks(c: Channel)
    requires MarkExact(c)
    ensures MarkExact(Talked(c))
  {
    DeliveredMarks(c, false);
  }

  lemma ReadMarks(c: Channel, n: nat)
    requires MarkExact(c)
    ensures MarkExact(Next(c, ReadBytes(n)).0)
  {
    var m := Min(n, |c.input|);
    var d := c.(input := c.input[m..]);
    if m > 0 && c.high > 0 && |d.input| < c.high {
      TalkedMarks(d.(wmSuspended := false));
    }
  }

  /** So it is after every step, but for a watermark that is set to just what there is: then the state stays as it was. */
  lemma StepMarks(c: Channel, step: Step)
    requires MarkExact(c)
    ensures step.SetHigh? && step.high > 0 && |c.input| == step.high ==> Next(c, step).0.wmSuspended == c.wmSuspended
    ensures !(step.SetHigh? && step.high > 0 && |c.input| == step.high) ==> MarkExact(Next(c, step).0)
  {
    match step {
      case Written(data) => TalkedMarks(c.(output := c.output + data));
      case ReadBytes(n) => ReadMarks(c, n);
      case SetHigh(high) =>
        if high == 0 || |c.input| < high {
          TalkedMarks(c.(high := high, wmSuspended := false));
        }
      case Flush => DeliveredMarks(c, true);
      case _ => TalkedMarks(Flagged(c, step));
    }
  }

  /** In every run that never sets the watermark to just what there is, reading is suspended for it exactly when it has been reached. */
  lemma {:induction false} RunMarks(steps: seq<Step>)
    requires forall i :: 0 <= i < |steps| && steps[i].SetHigh? ==> steps[i].high == 0 || |Ran(NEW_CHANNEL, steps[..i]).0.input| != steps[i].high
    ensures MarkExact(Ran(NEW_CHANNEL, steps).0)
  {
    if steps != [] {
      var n := |steps| - 1;
      assert forall i :: 0 <= i < n ==> steps[..n][..i] == steps[..i];
      RunMarks(steps[..n]);
      StepMarks(Ran(NEW_CHANNEL, steps[..n]).0, steps[n]);
    }
  }

  /** The reader is not enabled, and stays so. */
  ghost predicate Asleep(steps: seq<Step>) {
    forall i :: 0 <= i < |steps| ==> !steps[i].Flush? && !steps[i].EnableRead?
  }

  /** While the reader is disabled no byte reaches its input, in any run without flushes; what is written waits in order. */
  lemma {:induction false} NothingArrives(c: Channel, steps: seq<Step>)
    requires !c.enabledRead && Asleep(steps)
    ensures var (d, got) := Ran(c, steps);
      !d.enabledRead && got + d.input == c.input && d.output == c.output + Sent(steps)
  {
    if steps == [] {
      assert [] + c.input == c.input && c.output + [] == c.output;
    } else {
      var n := |steps| - 1;
      NothingArrives(c, steps[..n]);
      var (d, got) := Ran(c, steps[..n]);
      var (e, data) := Next(d, steps[n]);
      StaysDisabled(d, steps[n]);
      ArrivesInOrder(d, steps[n]);
      if Arrives(d, steps[n]) {
        ArrivesWilling(d, steps[n]);
        assert false;
      }
      assert (d.output + Fed(steps[n]))[..0] == [] && d.input + [] == d.input;
      Assoc(got, data, e.input);
      Assoc(c.output, Sent(steps[..n]), Fed(steps[n]));
    }
  }

  lemma StaysDisabled(c: Channel, step: Step)
    requires !step.EnableRead?
    ensures Next(c, step).0.enabledRead ==> c.enabledRead
  {
  }

  /** `on` came at place i of the run, and `off` not since. */
  ghost predicate OnAt(steps: seq<Step>, on: Step, off: Step, i: nat) {
    i < |steps| && steps[i] == on && forall k :: i < k < |steps| ==> steps[k] != off
  }

  /** A flag that begins as `first` was turned on and not off since. */
  ghost predicate IsOn(steps: seq<Step>, on: Step, off: Step, first: bool) {
    (exists i :: OnAt(steps, on, off, i)) || (first && off !in steps)
  }

  lemma OnAtOneMore(steps: seq<Step>, last: Step, on: Step, off: Step, i: nat)
    requires on != off
    ensures OnAt(steps + [last], on, off, i) <==>
      (i == |steps| && last == on) || (last != off && OnAt(steps, on, off, i))
  {
    var all := steps + [last];
    if OnAt(all, on, off, i) && i < |steps| {
      assert all[|steps|] != off;
      assert forall k :: i < k < |steps| ==> all[k] == steps[k];
    }
  }

  lemma OnOneMore(steps: seq<Step>, last: Step, on: Step, off: Step, first: bool)
    requires on != off
    ensures IsOn(steps + [last], on, off, first) <==> last == on || (last != off && IsOn(steps, on, off, first))
  {
    var all := steps + [last];
    assert off in all <==> off in steps || last == off;
    if last == on {
      OnAtOneMore(steps, last, on, off, |steps|);
    } else if exists i :: OnAt(all, on, off, i) {
      var i :| OnAt(all, on, off, i);
      OnAtOneMore(steps, last, on, off, i);
    } else if last != off && exists i :: OnAt(steps, on, off, i) {
      var i :| OnAt(steps, on, off, i);
      OnAtOneMore(steps, last, on, off, i);
    }
  }

  predicate SameFlags(c: Channel, d: Channel) {
    && d.enabledWrite == c.enabledWrite && d.enabledRead == c.enabledRead && d.high == c.high
    && d.writeSuspended == c.writeSuspended && d.readSuspended == c.readSuspended
  }

  /** A transfer leaves the flags and the watermark alone. */
  lemma TalkedFlags(c: Channel)
    ensures SameFlags(c, Talked(c))
  {
  }

  lemma ReadFlags(c: Channel, n: nat)
    ensures SameFlags(c, Next(c, ReadBytes(n)).0)
  {
    TalkedFlags(c.(input := c.input[Min(n, |c.input|)..], wmSuspended := false));
  }

  lemma MarkFlags(c: Channel, high: nat)
    ensures SameFlags(c.(high := high), Marked(c, high))
  {
    TalkedFlags(c.(high := high, wmSuspended := false));
  }

  /** The flags of a step that only sets flags are those it sets. */
  lemma SetFlags(c: Channel, step: Step)
    requires !step.Written? && !step.ReadBytes? && !step.SetHigh? && !step.Flush?
    ensures SameFlags(Flagged(c, step), Next(c, step).0)
  {
    TalkedFlags(Flagged(c, step));
  }

  /** What a step makes of the four flags and the watermark. */
  function FlagsAfter(c: Channel, step: Step): Channel {
    c.(enabledWrite := step.EnableWrite? || (!step.DisableWrite? && c.enabledWrite),
       enabledRead := step.EnableRead? || (!step.DisableRead? && c.enabledRead),
       writeSuspended := step.SuspendWrite? || (!step.UnsuspendWrite? && c.writeSuspended),
       readSuspended := step.SuspendRead? || (!step.UnsuspendRead? && c.readSuspended),
       high := if step.SetHigh? then step.high else c.high)
  }

  lemma StepFlags(c: Channel, step: Step)
    ensures SameFlags(FlagsAfter(c, step), Next(c, step).0)
  {
    match step {
      case Written(data) => TalkedFlags(c.(output := c.output + data));
      case ReadBytes(n) => ReadFlags(c, n);
      case SetHigh(high) => MarkFlags(c, high);
      case Flush =>
      case _ => SetFlags(c, step);
    }
  }

  /** In every run each flag is as the last step about it has left it; writing alone is enabled from the beginning. */
  lemma {:induction false} RunFlags(steps: seq<Step>)
    ensures var c := Ran(NEW_CHANNEL, steps).0;
      && (c.enabledWrite <==> IsOn(steps, EnableWrite, DisableWrite, true))
      && (c.enabledRead <==> IsOn(steps, EnableRead, DisableRead, false))
      && (c.writeSuspended <==> IsOn(steps, SuspendWrite, UnsuspendWrite, false))
      && (c.readSuspended <==> IsOn(steps, SuspendRead, UnsuspendRead, false))
  {
    if steps == [] {
    } else {
      var n := |steps| - 1;
      RunFlags(steps[..n]);
      StepFlags(Ran(NEW_CHANNEL, steps[..n]).0, steps[n]);
      assert steps == steps[..n] + [steps[n]];
      OnOneMore(steps[..n], steps[n], EnableWrite, DisableWrite, true);
      OnOneMore(steps[..n], steps[n], EnableRead, DisableRead, false);
      OnOneMore(steps[..n], steps[n], SuspendWrite, UnsuspendWrite, false);
      OnOneMore(steps[..n], steps[n], SuspendRead, UnsuspendRead, false);
    }
  }

  /** A read takes as much as is asked for and there. */
  lemma StepReads(c: Channel, step: Step)
    ensures |Next(c, step).1| == if !step.ReadBytes? then 0 else if step.n < |c.input| then step.n else |c.input|
  {
  }
}
