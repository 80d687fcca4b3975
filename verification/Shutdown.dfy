/** The one-shot shutdown: first signal, cooperative cancel, grace or second signal, forced exit. */
module Shutdown {
  import opened Common

  datatype Reason = Interrupt | Terminate

  const CANCELLED: int := 130
  const CANCELLED_SIGTERM: int := 143
  const DEFAULT_GRACE: nat := 5

  function ExitCode(r: Reason): int {
    match r case Interrupt => CANCELLED case Terminate => CANCELLED_SIGTERM
  }

  function SignalNumber(r: Reason): int {
    match r case Interrupt => 2 case Terminate => 15
  }

  /** The value the command line stores, and the value the handler uses; nothing stored reads as 0. */
  function StoredGrace(seconds: nat): nat {
    Min(Max(seconds, 1), 60)
  }

  function EffectiveGrace(stored: nat): nat {
    if 1 <= stored <= 60 then stored else DEFAULT_GRACE
  }

  lemma GraceIsBounded(seconds: nat, stored: nat)
    ensures 1 <= EffectiveGrace(stored) <= 60
    ensures EffectiveGrace(StoredGrace(seconds)) == StoredGrace(seconds)
    ensures EffectiveGrace(0) == DEFAULT_GRACE
  {
  }

  /** What becomes of the agent envelope of a deep-research run when the exit is forced. */
  datatype Envelope = NotInFlight | Written | PipeClosed | NotWritten

  const BROKEN_PIPE: int := 141

  /** The code of the forced exit: a closed pipe under the envelope takes precedence. */
  function EmitCancel(r: Reason, envelope: Envelope): int {
    if envelope.PipeClosed? then BROKEN_PIPE else ExitCode(r)
  }

  /** What the signal handler is doing; it handles one first signal in its life. */
  datatype Handler =
    | Idle
    | Caught(reason: Reason)
    | Recorded(reason: Reason)
    | Cancelling(reason: Reason)
    | Waiting(reason: Reason, grace: nat, elapsed: nat)
    | Exiting(reason: Reason, grace: nat, elapsed: nat, secondSignal: bool)
    | Exited(code: int, envelope: Envelope, grace: nat, elapsed: nat, secondSignal: bool)

  /** A worker runs, has returned the cancellation error, or its error was mapped to an exit code. */
  datatype Worker = Running | Unwinding(bySignal: bool) | Reported(code: int, bySignal: bool)

  datatype State = State(
    handler: Handler, lastExit: int, cancelled: bool, cancelledBySignal: bool, storedGrace: nat,
    first: Option<Reason>, workers: seq<Worker>)

  datatype Step =
    | SetGrace(seconds: nat)
    | Signal(reason: Reason)
    | Record
    | Cancel
    | ReadGrace
    | Tick
    | Expire
    | ForceExit(envelope: Envelope)
    | ProgrammaticCancel
    | SeeCancel(w: nat)
    | Report(w: nat)

  function Start(workers: nat): State {
    State(Idle, CANCELLED, false, false, 0, None, seq(workers, _ => Running))
  }

  /** The process is gone once the handler has forced its exit. */
  predicate Enabled(s: State, step: Step) {
    !s.handler.Exited? &&
    match step
    case SetGrace(_) => true
    case Signal(_) => true
    case Record => s.handler.Caught?
    case Cancel => s.handler.Recorded?
    case ReadGrace => s.handler.Cancelling?
    case Tick => s.handler.Waiting? && s.handler.elapsed < s.handler.grace
    case Expire => s.handler.Waiting? && s.handler.elapsed == s.handler.grace
    case ForceExit(_) => s.handler.Exiting?
    case ProgrammaticCancel => true
    case SeeCancel(w) => w < |s.workers| && s.workers[w].Running? && s.cancelled
    case Report(w) => w < |s.workers| && s.workers[w].Unwinding?
  }

  /** A signal is the first one, ends the wait, or is not listened for. */
  function OnSignal(h: Handler, r: Reason): Handler {
    match h
    case Idle => Caught(r)
    case Waiting(reason, grace, elapsed) => Exiting(reason, grace, elapsed, true)
    case _ => h
  }

  function Apply(s: State, step: Step): State
    requires Enabled(s, step)
  {
    match step
    case SetGrace(seconds) => s.(storedGrace := StoredGrace(seconds))
    case Signal(r) => s.(handler := OnSignal(s.handler, r), first := if s.handler.Idle? then Some(r) else s.first)
    case Record => s.(handler := Recorded(s.handler.reason), lastExit := ExitCode(s.handler.reason))
    case Cancel =>
      s.(handler := Cancelling(s.handler.reason), cancelled := true, cancelledBySignal := s.cancelledBySignal || !s.cancelled)
    case ReadGrace => s.(handler := Waiting(s.handler.reason, EffectiveGrace(s.storedGrace), 0))
    case Tick => s.(handler := Waiting(s.handler.reason, s.handler.grace, s.handler.elapsed + 1))
    case Expire => s.(handler := Exiting(s.handler.reason, s.handler.grace, s.handler.elapsed, false))
    case ForceExit(envelope) =>
      s.(handler := Exited(EmitCancel(s.handler.reason, envelope), envelope, s.handler.grace, s.handler.elapsed, s.handler.secondSignal))
    case ProgrammaticCancel => s.(cancelled := true)
    case SeeCancel(w) => s.(workers := s.workers[w := Unwinding(s.cancelledBySignal)])
    case Report(w) => s.(workers := s.workers[w := Reported(s.lastExit, s.workers[w].bySignal)])
  }

  // ----- The invariant -----

  /** The exit code every party owes to the first signal. */
  function Owed(s: State): int {
    match s.first case Some(r) => 128 + SignalNumber(r) case None => CANCELLED
  }

  predicate HandlerOk(s: State) {
    match s.handler
    case Idle => s.first.None? && s.lastExit == CANCELLED && !s.cancelledBySignal
    case Caught(r) => s.first == Some(r) && s.lastExit == CANCELLED && !s.cancelledBySignal
    case Recorded(r) => s.first == Some(r) && s.lastExit == Owed(s) && !s.cancelledBySignal
    case Cancelling(r) => s.first == Some(r) && s.lastExit == Owed(s) && s.cancelled
    case Waiting(r, grace, elapsed) =>
      s.first == Some(r) && s.lastExit == Owed(s) && s.cancelled && 1 <= grace <= 60 && elapsed <= grace
    case Exiting(r, grace, elapsed, second) =>
      s.first == Some(r) && s.lastExit == Owed(s) && s.cancelled && 1 <= grace <= 60 && elapsed <= grace
      && (!second ==> elapsed == grace)
    case Exited(code, envelope, grace, elapsed, second) =>
      s.first.Some? && s.lastExit == Owed(s) && code == EmitCancel(s.first.value, envelope) && s.cancelled && 1 <= grace <= 60 && elapsed <= grace
      && (!second ==> elapsed == grace)
  }

  predicate WorkerOk(s: State, w: Worker) {
    match w
    case Running => true
    case Unwinding(bySignal) => s.cancelled && (bySignal ==> s.cancelledBySignal)
    case Reported(code, bySignal) =>
      s.cancelled && (bySignal ==> s.cancelledBySignal && code == Owed(s)) && (code == CANCELLED || code == Owed(s))
  }

  predicate Inv(s: State) {
    HandlerOk(s) && forall i :: 0 <= i < |s.workers| ==> WorkerOk(s, s.workers[i])
  }

  lemma StepKeepsInv(s: State, step: Step)
    requires Inv(s) && Enabled(s, step)
    ensures Inv(Apply(s, step))
    ensures s.first.Some? ==> Apply(s, step).first == s.first
  {
    var s' := Apply(s, step);
    forall i | 0 <= i < |s'.workers| ensures WorkerOk(s', s'.workers[i]) {
      assert WorkerOk(s, s.workers[i]);
    }
  }

  predicate IsRun(s: State, steps: seq<Step>)
    decreases steps
  {
    steps == [] || (Enabled(s, steps[0]) && IsRun(Apply(s, steps[0]), steps[1..]))
  }

  function Final(s: State, steps: seq<Step>): State
    requires IsRun(s, steps)
    decreases steps
  {
    if steps == [] then s else Final(Apply(s, steps[0]), steps[1..])
  }

  lemma {:induction false} RunKeepsInv(s: State, steps: seq<Step>)
    requires Inv(s) && IsRun(s, steps)
    ensures Inv(Final(s, steps))
    ensures s.first.Some? ==> Final(s, steps).first == s.first
    decreases steps
  {
    hide Inv, Enabled, Apply;
    if steps != [] {
      StepKeepsInv(s, steps[0]);
      RunKeepsInv(Apply(s, steps[0]), steps[1..]);
    }
  }

  /**
   * In every interleaving: a worker cancelled by the signal reports 128 plus the first signal, and so
   * does the forced exit, except exactly when the deep-research envelope meets a closed pipe; the
   * wait never exceeds a grace of 1 to 60 seconds, and all of it passes unless a signal cuts it short.
   */
  lemma EveryExitNamesTheFirstSignal(workers: nat, steps: seq<Step>)
    requires IsRun(Start(workers), steps)
    ensures var s := Final(Start(workers), steps);
      && (forall i :: 0 <= i < |s.workers| && s.workers[i].Reported? && s.workers[i].bySignal ==>
            s.first.Some? && s.workers[i].code == 128 + SignalNumber(s.first.value))
      && (s.handler.Exited? ==>
            && s.first.Some?
            && s.handler.code == (if s.handler.envelope.PipeClosed? then 141 else 128 + SignalNumber(s.first.value))
            && 1 <= s.handler.grace <= 60 && s.handler.elapsed <= s.handler.grace
            && (!s.handler.secondSignal ==> s.handler.elapsed == s.handler.grace))
  {
    hide IsRun, Final;
    RunKeepsInv(Start(workers), steps);
    var s := Final(Start(workers), steps);
    forall i | 0 <= i < |s.workers| && s.workers[i].Reported? && s.workers[i].bySignal
      ensures s.first.Some? && s.workers[i].code == 128 + SignalNumber(s.first.value)
    {
      assert WorkerOk(s, s.workers[i]);
    }
  }

  /** Signals after the first never change which one is reported. */
  lemma LaterSignalsDoNotRename(s: State, steps: seq<Step>)
    requires Inv(s) && s.first.Some? && IsRun(s, steps)
    ensures Final(s, steps).first == s.first && Owed(Final(s, steps)) == Owed(s)
  {
    RunKeepsInv(s, steps);
  }

  /** A cancellation that no signal caused is reported as an interrupt, whoever reports it. */
  lemma {:induction false} WithoutSignals(s: State, steps: seq<Step>)
    requires Inv(s) && s.first.None? && IsRun(s, steps)
    requires forall k :: 0 <= k < |steps| ==> !steps[k].Signal?
    ensures var last := Final(s, steps);
      && last.first.None? && !last.handler.Exited?
      && forall i :: 0 <= i < |last.workers| && last.workers[i].Reported? ==> last.workers[i].code == CANCELLED
    decreases steps
  {
    if steps == [] {
      forall i | 0 <= i < |s.workers| && s.workers[i].Reported? ensures s.workers[i].code == CANCELLED {
        assert WorkerOk(s, s.workers[i]);
      }
    } else {
      StepKeepsInv(s, steps[0]);
      assert forall k :: 0 <= k < |steps[1..]| ==> steps[1..][k] == steps[k + 1];
      WithoutSignals(Apply(s, steps[0]), steps[1..]);
    }
  }

  /** The handler has written the code of the signal it caught. */
  predicate HasRecorded(h: Handler) {
    !h.Idle? && !h.Caught?
  }

  /**
   * Once a signal has come, a worker that reports a cancellation, whoever caused it, names that signal
   * exactly when the handler has recorded it by then or it is an interrupt, whose code is the default.
   */
  lemma ReportNamesTheSignalExactly(s: State, w: nat)
    requires Inv(s) && Enabled(s, Report(w)) && s.first.Some?
    ensures var s' := Apply(s, Report(w));
      && s'.workers[w].Reported? && s'.first == s.first
      && (s'.workers[w].code == 128 + SignalNumber(s.first.value) <==> HasRecorded(s.handler) || s.first.value.Interrupt?)
  {
  }

  /**
   * A programmatic cancel may be reported as 130 although SIGTERM came: the worker read the code
   * before the handler recorded it.
   */
  lemma ProgrammaticCancelCanRace()
    ensures var steps := [ProgrammaticCancel, SeeCancel(0), Signal(Terminate), Report(0), Record];
      IsRun(Start(1), steps) && Final(Start(1), steps).workers == [Reported(130, false)]
        && Final(Start(1), steps).lastExit == 143
  {
    var s0 := Start(1);
    var s1 := Apply(s0, ProgrammaticCancel);
    var s2 := Apply(s1, SeeCancel(0));
    var s3 := Apply(s2, Signal(Terminate));
    var s4 := Apply(s3, Report(0));
    var s5 := Apply(s4, Record);
    assert IsRun(s5, []) && Final(s5, []) == s5;
    assert IsRun(s4, [Record]) && Final(s4, [Record]) == s5;
    assert [Report(0), Record][1..] == [Record];
    assert IsRun(s3, [Report(0), Record]) && Final(s3, [Report(0), Record]) == s5;
    assert [Signal(Terminate), Report(0), Record][1..] == [Report(0), Record];
    assert IsRun(s2, [Signal(Terminate), Report(0), Record]);
    assert [SeeCancel(0), Signal(Terminate), Report(0), Record][1..] == [Signal(Terminate), Report(0), Record];
    assert IsRun(s1, [SeeCancel(0), Signal(Terminate), Report(0), Record]);
    assert [ProgrammaticCancel, SeeCancel(0), Signal(Terminate), Report(0), Record][1..]
        == [SeeCancel(0), Signal(Terminate), Report(0), Record];
  }

  // ----- Later signals only shorten the wait -----

  /** How long the handler will still wait if no further signal comes. */
  function Remaining(h: Handler): nat {
    match h
    case Waiting(_, grace, elapsed) => if elapsed <= grace then grace - elapsed else 0
    case _ => 0
  }

  /** Once it waits, no step of anyone ever lengthens what is left of the wait. */
  lemma WaitOnlyShrinks(s: State, step: Step)
    requires Inv(s) && Enabled(s, step) && s.handler.Waiting?
    ensures Remaining(Apply(s, step).handler) <= Remaining(s.handler)
    ensures step.Signal? ==> Remaining(Apply(s, step).handler) == 0 && Apply(s, step).handler.Exiting?
  {
  }
}
