/** What a shutdown amounts to, read off the steps that were taken. */
module ShutdownRuns {
  import opened Common
  import opened Shutdown

  lemma {:induction false} RunSnoc(s: State, steps: seq<Step>, step: Step)
    requires IsRun(s, steps + [step])
    ensures IsRun(s, steps) && Enabled(Final(s, steps), step)
    ensures Final(s, steps + [step]) == Apply(Final(s, steps), step)
    decreases steps
  {
    hide Enabled, Apply;
    if steps == [] {
      assert steps + [step] == [step] && [step][1..] == [];
    } else {
      assert (steps + [step])[0] == steps[0] && (steps + [step])[1..] == steps[1..] + [step];
      RunSnoc(Apply(s, steps[0]), steps[1..], step);
    }
  }

  // ----- The grace that applies -----

  function ToRange(seconds: nat): nat {
    if seconds < 1 then 1 else if seconds > 60 then 60 else seconds
  }

  /** The last grace set before place `n` counts as `v` seconds, brought into 1 to 60; 0 when none was set. */
  ghost predicate LastSet(steps: seq<Step>, n: nat, v: nat)
    requires n <= |steps|
  {
    || (v == 0 && forall q :: 0 <= q < n ==> !steps[q].SetGrace?)
    || (exists p :: 0 <= p < n && steps[p].SetGrace? && v == ToRange(steps[p].seconds)
          && forall q :: p < q < n ==> !steps[q].SetGrace?)
  }

  lemma LastSetSnoc(steps: seq<Step>, step: Step, n: nat, v: nat)
    requires n <= |steps|
    ensures LastSet(steps + [step], n, v) <==> LastSet(steps, n, v)
    ensures LastSet(steps, |steps|, v) && !step.SetGrace? ==> LastSet(steps + [step], |steps| + 1, v)
    ensures step.SetGrace? ==> LastSet(steps + [step], |steps| + 1, ToRange(step.seconds))
  {
    var more := steps + [step];
    assert forall q :: 0 <= q < |steps| ==> more[q] == steps[q];
    if step.SetGrace? {
      assert more[|steps|] == step;
    }
  }

  function GraceOf(h: Handler): Option<nat> {
    match h
    case Waiting(_, grace, _) => Some(grace)
    case Exiting(_, grace, _, _) => Some(grace)
    case Exited(_, _, grace, _, _) => Some(grace)
    case _ => None
  }

  function ElapsedOf(h: Handler): nat {
    match h
    case Waiting(_, _, elapsed) => elapsed
    case Exiting(_, _, elapsed, _) => elapsed
    case Exited(_, _, _, elapsed, _) => elapsed
    case _ => 0
  }

  predicate CutShort(h: Handler) {
    match h
    case Exiting(_, _, _, second) => second
    case Exited(_, _, _, _, second) => second
    case _ => false
  }

  /** The handler read this grace at place `r`: the last one set before, or 5 seconds when none was. */
  ghost predicate GraceReadAt(steps: seq<Step>, r: nat, grace: nat) {
    && r < |steps| && steps[r].ReadGrace?
    && exists v: nat :: LastSet(steps, r, v) && grace == if v == 0 then 5 else v
  }

  /** A signal came after the grace was read. */
  ghost predicate SignalAfter(steps: seq<Step>, r: nat) {
    exists q :: r < q < |steps| && steps[q].Signal?
  }

  function Ticks(steps: seq<Step>): nat {
    if steps == [] then 0 else Ticks(steps[..|steps| - 1]) + if steps[|steps| - 1].Tick? then 1 else 0
  }

  /** What the waiting state of a handler says about the steps that led to it. */
  ghost predicate WaitTells(steps: seq<Step>, h: Handler) {
    match GraceOf(h)
    case None => ElapsedOf(h) == 0 && Ticks(steps) == 0
    case Some(grace) =>
      && ElapsedOf(h) == Ticks(steps)
      && exists r: nat :: GraceReadAt(steps, r, grace) && (CutShort(h) ==> SignalAfter(steps, r))
  }

  lemma TicksSnoc(steps: seq<Step>, step: Step)
    ensures Ticks(steps + [step]) == Ticks(steps) + if step.Tick? then 1 else 0
  {
    assert (steps + [step])[..|steps|] == steps;
  }

  lemma GraceReadSnoc(steps: seq<Step>, step: Step, r: nat, grace: nat)
    requires GraceReadAt(steps, r, grace)
    ensures GraceReadAt(steps + [step], r, grace)
    ensures SignalAfter(steps, r) ==> SignalAfter(steps + [step], r)
    ensures step.Signal? ==> SignalAfter(steps + [step], r)
  {
    var more := steps + [step];
    var v: nat :| LastSet(steps, r, v) && grace == if v == 0 then 5 else v;
    LastSetSnoc(steps, step, r, v);
    assert more[|steps|] == step;
    if SignalAfter(steps, r) {
      var q :| r < q < |steps| && steps[q].Signal?;
      assert more[q].Signal?;
    }
  }

  /** Reading the grace is the step that starts the wait. */
  lemma ReadingStartsTheWait(steps: seq<Step>, stored: nat)
    requires LastSet(steps, |steps|, stored)
    ensures GraceReadAt(steps + [ReadGrace], |steps|, EffectiveGrace(stored))
  {
    LastSetSnoc(steps, ReadGrace, |steps|, stored);
    assert (steps + [ReadGrace])[|steps|] == ReadGrace;
  }

  lemma WaitTellsSnoc(steps: seq<Step>, s: State, step: Step)
    requires LastSet(steps, |steps|, s.storedGrace) && WaitTells(steps, s.handler) && Enabled(s, step)
    ensures WaitTells(steps + [step], Apply(s, step).handler)
  {
    hide LastSet, GraceReadAt, SignalAfter, Ticks;
    TicksSnoc(steps, step);
    if step.ReadGrace? {
      ReadingStartsTheWait(steps, s.storedGrace);
    } else if GraceOf(s.handler).Some? {
      var r: nat :| GraceReadAt(steps, r, GraceOf(s.handler).value) && (CutShort(s.handler) ==> SignalAfter(steps, r));
      GraceReadSnoc(steps, step, r, GraceOf(s.handler).value);
      var h := Apply(s, step).handler;
      assert GraceOf(h) == GraceOf(s.handler) && (CutShort(h) ==> CutShort(s.handler) || step.Signal?);
      assert GraceReadAt(steps + [step], r, GraceOf(h).value) && (CutShort(h) ==> SignalAfter(steps + [step], r));
    }
  }

  lemma GraceIsStored(s: State, step: Step)
    requires Enabled(s, step)
    ensures Apply(s, step).storedGrace == if step.SetGrace? then ToRange(step.seconds) else s.storedGrace
  {
  }

  /**
   * In every run the grace of a handler that waits or has waited is the last one set before it began to
   * wait, brought into 1 to 60 seconds, or 5 when none was set; as many seconds have passed as the clock
   * ticked; and a wait is only ever cut short by a signal that came after it began.
   */
  lemma {:induction false} WaitIsTheConfiguredOne(workers: nat, steps: seq<Step>)
    requires IsRun(Start(workers), steps)
    ensures LastSet(steps, |steps|, Final(Start(workers), steps).storedGrace)
    ensures WaitTells(steps, Final(Start(workers), steps).handler)
  {
    if steps != [] {
      hide WaitTells, LastSet, Final, IsRun, Enabled;
      var front, step := steps[..|steps| - 1], steps[|steps| - 1];
      assert steps == front + [step];
      RunSnoc(Start(workers), front, step);
      WaitIsTheConfiguredOne(workers, front);
      var s := Final(Start(workers), front);
      WaitTellsSnoc(front, s, step);
      LastSetSnoc(front, step, |front|, s.storedGrace);
      GraceIsStored(s, step);
    }
  }

  // ----- Which signal is the first, and who cancelled -----

  ghost predicate FirstSignal(steps: seq<Step>, first: Option<Reason>) {
    match first
    case None => forall q :: 0 <= q < |steps| ==> !steps[q].Signal?
    case Some(r) => exists p :: 0 <= p < |steps| && steps[p] == Signal(r) && forall q :: 0 <= q < p ==> !steps[q].Signal?
  }

  lemma FirstSignalSnoc(steps: seq<Step>, step: Step, first: Option<Reason>)
    requires FirstSignal(steps, first)
    ensures FirstSignal(steps + [step], if first.None? && step.Signal? then Some(step.reason) else first)
  {
    var more := steps + [step];
    assert more[|steps|] == step;
    assert forall q :: 0 <= q < |steps| ==> more[q] == steps[q];
    if first.Some? {
      var p :| 0 <= p < |steps| && steps[p] == Signal(first.value) && forall q :: 0 <= q < p ==> !steps[q].Signal?;
      assert more[p] == Signal(first.value);
    }
  }

  /** The cancellation is the signal's if the handler cancelled before anybody else did. */
  ghost predicate SignalCancelled(steps: seq<Step>) {
    exists p :: 0 <= p < |steps| && steps[p].Cancel? && forall q :: 0 <= q < p ==> !steps[q].ProgrammaticCancel?
  }

  ghost predicate AnyCancelled(steps: seq<Step>) {
    exists p :: 0 <= p < |steps| && (steps[p].Cancel? || steps[p].ProgrammaticCancel?)
  }

  lemma CancelledSnoc(steps: seq<Step>, step: Step)
    ensures AnyCancelled(steps + [step]) <==> AnyCancelled(steps) || step.Cancel? || step.ProgrammaticCancel?
    ensures SignalCancelled(steps + [step]) <==> SignalCancelled(steps) || (step.Cancel? && !AnyProgrammatic(steps))
  {
    var more := steps + [step];
    assert more[|steps|] == step;
    assert forall q :: 0 <= q < |steps| ==> more[q] == steps[q];
    if p :| 0 <= p < |steps| && (steps[p].Cancel? || steps[p].ProgrammaticCancel?) {
      assert more[p] == steps[p];
    }
    if p :| 0 <= p < |steps| && steps[p].Cancel? && forall q :: 0 <= q < p ==> !steps[q].ProgrammaticCancel? {
      assert more[p].Cancel?;
    }
  }

  ghost predicate AnyProgrammatic(steps: seq<Step>) {
    exists p :: 0 <= p < |steps| && steps[p].ProgrammaticCancel?
  }

  lemma ProgrammaticSnoc(steps: seq<Step>, step: Step)
    ensures AnyProgrammatic(steps + [step]) <==> AnyProgrammatic(steps) || step.ProgrammaticCancel?
  {
    var more := steps + [step];
    assert more[|steps|] == step;
    if p :| 0 <= p < |steps| && steps[p].ProgrammaticCancel? {
      assert more[p] == steps[p];
    }
  }

  /** A handler that has caught a signal but not cancelled yet has taken no cancel step. */
  ghost predicate CancelTells(steps: seq<Step>, s: State) {
    && (s.cancelled <==> AnyCancelled(steps))
    && (s.cancelledBySignal <==> SignalCancelled(steps))
    && (s.handler.Idle? || s.handler.Caught? || s.handler.Recorded? ==> (s.cancelled <==> AnyProgrammatic(steps)))
  }

  lemma CancelTellsSnoc(steps: seq<Step>, s: State, step: Step)
    requires CancelTells(steps, s) && Enabled(s, step)
    ensures CancelTells(steps + [step], Apply(s, step))
  {
    hide AnyCancelled, SignalCancelled, AnyProgrammatic;
    CancelledSnoc(steps, step);
    ProgrammaticSnoc(steps, step);
  }

  /**
   * In every run the signal that names the exit is the first one that came, and a cancellation is blamed
   * on it exactly when the handler cancelled before anybody else did.
   */
  lemma {:induction false} FirstSignalIsNamed(workers: nat, steps: seq<Step>)
    requires IsRun(Start(workers), steps)
    ensures var s := Final(Start(workers), steps);
            FirstSignal(steps, s.first) && CancelTells(steps, s) && (s.first.None? <==> s.handler.Idle?)
  {
    if steps != [] {
      var front, step := steps[..|steps| - 1], steps[|steps| - 1];
      assert steps == front + [step];
      RunSnoc(Start(workers), front, step);
      FirstSignalIsNamed(workers, front);
      var s := Final(Start(workers), front);
      FirstSignalSnoc(front, step, s.first);
      CancelTellsSnoc(front, s, step);
      hide FirstSignal, CancelTells, Final, IsRun;
    }
  }

  // ----- The shutdown cannot hang -----

  /** A step of the handler itself. */
  predicate IsHandlerStep(step: Step) {
    step.Record? || step.Cancel? || step.ReadGrace? || step.Tick? || step.Expire? || step.ForceExit?
  }

  /** How many steps the handler still has to take. */
  function Left(h: Handler): nat {
    match h
    case Idle => 67
    case Caught(_) => 66
    case Recorded(_) => 65
    case Cancelling(_) => 64
    case Waiting(_, g, elapsed) => if elapsed <= g <= 60 then 2 + g - elapsed else 2
    case Exiting(_, _, _, _) => 1
    case Exited(_, _, _, _, _) => 0
  }

  /** Once a signal has come, the handler can force the exit on its own, in at most 66 steps. */
  lemma {:induction false} HandlerCanExit(s: State, envelope: Envelope) returns (steps: seq<Step>)
    requires Inv(s) && s.first.Some?
    ensures IsRun(s, steps) && Final(s, steps).handler.Exited? && |steps| <= 66
    ensures forall k :: 0 <= k < |steps| ==> IsHandlerStep(steps[k])
    ensures |steps| <= Left(s.handler)
    ensures !s.handler.Exited? ==> Final(s, steps).handler.envelope == envelope
    decreases Left(s.handler)
  {
    if s.handler.Exited? {
      steps := [];
    } else {
      var step :=
        if s.handler.Caught? then Record else if s.handler.Recorded? then Cancel
        else if s.handler.Cancelling? then ReadGrace else if s.handler.Exiting? then ForceExit(envelope)
        else if s.handler.elapsed < s.handler.grace then Tick else Expire;
      StepKeepsInv(s, step);
      var rest := HandlerCanExit(Apply(s, step), envelope);
      steps := [step] + rest;
      assert steps[1..] == rest;
    }
  }

  /** Until the exit is forced the grace can be set, signals can come, and anybody can cancel. */
  lemma AnythingMayHappen(s: State, seconds: nat, r: Reason)
    requires !s.handler.Exited?
    ensures Enabled(s, SetGrace(seconds)) && Enabled(s, Signal(r)) && Enabled(s, ProgrammaticCancel)
  {
  }

  /** A running worker can always see a cancellation and report it. */
  lemma WorkerCanReport(s: State, w: nat)
    requires Inv(s) && s.cancelled && !s.handler.Exited? && w < |s.workers| && s.workers[w].Running?
    ensures IsRun(s, [SeeCancel(w), Report(w)])
    ensures |Final(s, [SeeCancel(w), Report(w)]).workers| == |s.workers|
    ensures Final(s, [SeeCancel(w), Report(w)]).workers[w] == Reported(s.lastExit, s.cancelledBySignal)
  {
    var t := Apply(s, SeeCancel(w));
    var u := Apply(t, Report(w));
    assert [SeeCancel(w), Report(w)][1..] == [Report(w)] && [Report(w)][1..] == [];
    assert IsRun(u, []) && Final(u, []) == u;
    assert IsRun(t, [Report(w)]) && Final(t, [Report(w)]) == u;
  }
}
