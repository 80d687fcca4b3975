/**
 * Equal jobs under a permit budget. Each of `|start|` jobs runs for `unit` seconds without
 * preemption from its start time and occupies one of `capacity` places meanwhile.
 */
module Schedule {
  import opened Common
  import opened Arithmetic

  predicate RunsAt(start: nat, unit: nat, t: nat) {
    start <= t < start + unit
  }

  function RunningAt(start: seq<nat>, unit: nat, t: nat): nat {
    if start == [] then 0
    else (if RunsAt(start[0], unit, t) then 1 else 0) + RunningAt(start[1..], unit, t)
  }

  /** The jobs running at any moment hold no more permits than there are. */
  ghost predicate Feasible(start: seq<nat>, unit: nat, slots: nat, budget: nat) {
    forall t: nat :: slots * RunningAt(start, unit, t) <= budget
  }

  /** Admission never leaves a job waiting while enough permits are free. */
  ghost predicate Greedy(start: seq<nat>, unit: nat, slots: nat, budget: nat) {
    forall i, t: nat :: 0 <= i < |start| && t < start[i] ==>
      slots * RunningAt(start, unit, t) + slots > budget
  }

  /** When the last job ends. */
  function Makespan(start: seq<nat>, unit: nat): nat {
    if start == [] then 0 else Max(start[0] + unit, Makespan(start[1..], unit))
  }

  // ----- Counting jobs by the unit-long window they start in -----

  function StartedIn(start: seq<nat>, unit: nat, w: nat): nat
    requires unit > 0
  {
    if start == [] then 0
    else (if Quotient(start[0], unit) == w then 1 else 0) + StartedIn(start[1..], unit, w)
  }

  function StartedBefore(start: seq<nat>, unit: nat, w: nat): nat
    requires unit > 0
  {
    if start == [] then 0
    else (if Quotient(start[0], unit) < w then 1 else 0) + StartedBefore(start[1..], unit, w)
  }

  lemma {:induction false} StartedBeforeNext(start: seq<nat>, unit: nat, w: nat)
    requires unit > 0
    ensures StartedBefore(start, unit, w + 1) == StartedBefore(start, unit, w) + StartedIn(start, unit, w)
  {
    if start != [] {
      StartedBeforeNext(start[1..], unit, w);
    }
  }

  lemma {:induction false} NoneStartedBeforeZero(start: seq<nat>, unit: nat)
    requires unit > 0
    ensures StartedBefore(start, unit, 0) == 0
  {
    if start != [] {
      NoneStartedBeforeZero(start[1..], unit);
    }
  }

  /** All jobs that start within one window are running at its last moment. */
  lemma {:induction false} WindowRunsAtItsEnd(start: seq<nat>, unit: nat, w: nat)
    requires unit > 0
    ensures (w + 1) * unit >= 1
    ensures StartedIn(start, unit, w) <= RunningAt(start, unit, (w + 1) * unit - 1)
  {
    assert (w + 1) * unit == w * unit + unit;
    if start != [] {
      WindowRunsAtItsEnd(start[1..], unit, w);
      QuotientBounds(start[0], unit);
    }
  }

  lemma HeldAgainstCapacity(running: nat, cap: nat, slots: nat, budget: nat)
    requires cap * slots <= budget < (cap + 1) * slots
    ensures slots * running <= budget <==> running <= cap
  {
    MulMonotone(running, cap, slots);
    MulMonotone(cap + 1, running, slots);
  }

  /** Holding at most `budget` permits means running at most `budget / slots` jobs. */
  lemma SlotsToCapacity(running: nat, slots: nat, budget: nat)
    requires slots > 0
    ensures slots * running <= budget <==> running <= Quotient(budget, slots)
  {
    QuotientBounds(budget, slots);
    HeldAgainstCapacity(running, Quotient(budget, slots), slots, budget);
  }

  lemma CapacityIsPositive(slots: nat, budget: nat)
    requires 0 < slots <= budget
    ensures Quotient(budget, slots) >= 1
  {
    SlotsToCapacity(1, slots, budget);
  }

  lemma AtMostCapacityInWindow(start: seq<nat>, unit: nat, slots: nat, budget: nat, w: nat)
    requires unit > 0 && slots > 0 && Feasible(start, unit, slots, budget)
    ensures StartedIn(start, unit, w) <= Quotient(budget, slots)
  {
    WindowRunsAtItsEnd(start, unit, w);
    SlotsToCapacity(RunningAt(start, unit, (w + 1) * unit - 1), slots, budget);
  }

  lemma {:induction false} AtMostCapacityPerWindow(start: seq<nat>, unit: nat, slots: nat, budget: nat, w: nat)
    requires unit > 0 && slots > 0 && Feasible(start, unit, slots, budget)
    ensures StartedBefore(start, unit, w) <= w * (Quotient(budget, slots))
  {
    if w == 0 {
      NoneStartedBeforeZero(start, unit);
    } else {
      AtMostCapacityPerWindow(start, unit, slots, budget, w - 1);
      StartedBeforeNext(start, unit, w - 1);
      AtMostCapacityInWindow(start, unit, slots, budget, w - 1);
      OneMore(w - 1, Quotient(budget, slots));
    }
  }

  /** A job that ends by `end` starts in one of the whole windows before it. */
  lemma WindowOfJob(s: nat, unit: nat, end: nat)
    requires unit > 0 && s + unit <= end
    ensures Quotient(s, unit) < Quotient(end, unit)
  {
    QuotientBounds(s, unit);
    QuotientBounds(end, unit);
    OneMore(Quotient(s, unit), unit);
    QuotientsInOrder(Quotient(s, unit) + 1, Quotient(end, unit), s + unit, end, unit);
  }

  lemma {:induction false} AllStartBeforeTheEnd(start: seq<nat>, unit: nat, end: nat)
    requires unit > 0 && Makespan(start, unit) <= end
    ensures StartedBefore(start, unit, Quotient(end, unit)) == |start|
  {
    if start != [] {
      AllStartBeforeTheEnd(start[1..], unit, end);
      WindowOfJob(start[0], unit, end);
    }
  }

  /** No schedule within the budget finishes before the wave formula says. */
  lemma NoScheduleIsFaster(start: seq<nat>, unit: nat, slots: nat, budget: nat)
    requires unit > 0 && 0 < slots <= budget && Feasible(start, unit, slots, budget)
    ensures Quotient(budget, slots) >= 1
    ensures Makespan(start, unit) >= CeilDiv(|start|, Quotient(budget, slots)) * unit
  {
    var end, cap := Makespan(start, unit), Quotient(budget, slots);
    CapacityIsPositive(slots, budget);
    AllStartBeforeTheEnd(start, unit, end);
    AtMostCapacityPerWindow(start, unit, slots, budget, Quotient(end, unit));
    CeilDivIsLeast(|start|, cap, Quotient(end, unit));
    QuotientBounds(end, unit);
    MulMonotone(CeilDiv(|start|, cap), Quotient(end, unit), unit);
  }

  // ----- Greedy admission runs in full waves -----

  /** Every job that starts before window `w` starts at the very beginning of a window. */
  ghost predicate InWaves(start: seq<nat>, unit: nat, w: nat)
    requires unit > 0
  {
    forall i :: 0 <= i < |start| && start[i] < w * unit ==> start[i] == Quotient(start[i], unit) * unit
  }

  lemma InWavesTail(start: seq<nat>, unit: nat, w: nat)
    requires unit > 0 && start != [] && InWaves(start, unit, w)
    ensures InWaves(start[1..], unit, w)
  {
    forall i | 0 <= i < |start[1..]| && start[1..][i] < w * unit
      ensures start[1..][i] == Quotient(start[1..][i], unit) * unit
    {
      assert start[i + 1] < w * unit;
    }
  }

  /** A job that started at the beginning of an earlier window is over when window `w` begins. */
  lemma EarlierWaveIsOver(s: nat, unit: nat, w: nat)
    requires unit > 0
    ensures s < w * unit && s == Quotient(s, unit) * unit ==> s + unit <= w * unit
  {
    OneMore(Quotient(s, unit), unit);
    MulMonotone(Quotient(s, unit), w, unit);
    MulMonotone(Quotient(s, unit) + 1, w, unit);
  }

  /** When window `w` begins, only the jobs that start in it can be running. */
  lemma {:induction false} OnlyOwnWaveRuns(start: seq<nat>, unit: nat, w: nat)
    requires unit > 0 && InWaves(start, unit, w)
    ensures RunningAt(start, unit, w * unit) <= StartedIn(start, unit, w)
  {
    if start != [] {
      InWavesTail(start, unit, w);
      OnlyOwnWaveRuns(start[1..], unit, w);
      EarlierWaveIsOver(start[0], unit, w);
      if RunsAt(start[0], unit, w * unit) {
        OneMore(w, unit);
        QuotientUnique(start[0], unit, w);
      }
    }
  }

  /** Jobs running when window `w` begins run throughout it; a job starting inside it adds one. */
  lemma {:induction false} WaveKeepsRunning(start: seq<nat>, unit: nat, w: nat, t: nat)
    requires unit > 0 && InWaves(start, unit, w) && w * unit < t < w * unit + unit
    ensures RunningAt(start, unit, t) >= RunningAt(start, unit, w * unit) + if t in start then 1 else 0
  {
    if start != [] {
      assert start == [start[0]] + start[1..];
      InWavesTail(start, unit, w);
      WaveKeepsRunning(start[1..], unit, w, t);
      EarlierWaveIsOver(start[0], unit, w);
    }
  }

  /** While jobs are still waiting at the beginning of a window, the window is full. */
  lemma FullWave(start: seq<nat>, unit: nat, slots: nat, budget: nat, w: nat, i: nat)
    requires unit > 0 && 0 < slots <= budget
    requires Feasible(start, unit, slots, budget) && Greedy(start, unit, slots, budget)
    requires InWaves(start, unit, w)
    requires i < |start| && w * unit < start[i]
    ensures StartedIn(start, unit, w) == Quotient(budget, slots)
    ensures InWaves(start, unit, w + 1)
  {
    var t := w * unit;
    var running := RunningAt(start, unit, t);
    OneMore(running, slots);
    SlotsToCapacity(running, slots, budget);
    SlotsToCapacity(running + 1, slots, budget);
    assert slots * RunningAt(start, unit, t) + slots > budget;
    assert running == Quotient(budget, slots);
    OnlyOwnWaveRuns(start, unit, w);
    AtMostCapacityInWindow(start, unit, slots, budget, w);
    OneMore(w, unit);
    forall j | 0 <= j < |start| && start[j] < (w + 1) * unit ensures start[j] == Quotient(start[j], unit) * unit {
      if t < start[j] {
        WaveKeepsRunning(start, unit, w, start[j]);
        SlotsToCapacity(RunningAt(start, unit, start[j]), slots, budget);
        assert false;
      } else if start[j] == t {
        QuotientUnique(t, unit, w);
      }
    }
  }

  lemma {:induction false} AllStarted(start: seq<nat>, unit: nat, w: nat)
    requires unit > 0 && forall i :: 0 <= i < |start| ==> start[i] <= w * unit
    ensures StartedBefore(start, unit, w + 1) == |start|
  {
    if start != [] {
      assert forall i :: 0 <= i < |start[1..]| ==> start[1..][i] == start[i + 1];
      AllStarted(start[1..], unit, w);
      QuotientBounds(start[0], unit);
      MulMonotone(Quotient(start[0], unit), w, unit);
      OneMore(w, unit);
      MulMonotone(Quotient(start[0], unit), w + 1, unit);
    }
  }

  lemma {:induction false} StartedBeforeBound(start: seq<nat>, unit: nat, w: nat)
    requires unit > 0
    ensures StartedBefore(start, unit, w) <= |start|
    ensures StartedBefore(start, unit, w) == |start| <==>
              forall i :: 0 <= i < |start| ==> Quotient(start[i], unit) < w
  {
    if start != [] {
      StartedBeforeBound(start[1..], unit, w);
      assert forall i :: 0 <= i < |start[1..]| ==> start[1..][i] == start[i + 1];
    }
  }

  /** After `w` windows, a greedy schedule has started as many jobs as could possibly be started. */
  lemma {:induction false} GreedyFillsWaves(start: seq<nat>, unit: nat, slots: nat, budget: nat, w: nat)
    requires unit > 0 && 0 < slots <= budget
    requires Feasible(start, unit, slots, budget) && Greedy(start, unit, slots, budget)
    ensures InWaves(start, unit, w)
    ensures StartedBefore(start, unit, w) == Min(|start|, w * (Quotient(budget, slots)))
  {
    if w == 0 {
      NoneStartedBeforeZero(start, unit);
    } else {
      var v := w - 1;
      GreedyFillsWaves(start, unit, slots, budget, v);
      StartedBeforeNext(start, unit, v);
      OneMore(v, Quotient(budget, slots));
      StartedBeforeBound(start, unit, v);
      StartedBeforeBound(start, unit, w);
      if i :| 0 <= i < |start| && v * unit < start[i] {
        FullWave(start, unit, slots, budget, v, i);
        QuotientBounds(start[i], unit);
        MulMonotone(Quotient(start[i], unit) + 1, v, unit);
      } else {
        AllStarted(start, unit, v);
        AtMostCapacityPerWindow(start, unit, slots, budget, w);
        forall j | 0 <= j < |start| && start[j] < w * unit ensures start[j] == Quotient(start[j], unit) * unit {
          if start[j] == v * unit {
            OneMore(v, unit);
            QuotientUnique(start[j], unit, v);
          }
        }
      }
    }
  }

  lemma {:induction false} MakespanInWaves(start: seq<nat>, unit: nat, w: nat)
    requires unit > 0 && InWaves(start, unit, w)
    requires forall i :: 0 <= i < |start| ==> start[i] < w * unit
    ensures Makespan(start, unit) <= w * unit
  {
    if start != [] {
      InWavesTail(start, unit, w);
      assert forall i :: 0 <= i < |start[1..]| ==> start[1..][i] == start[i + 1];
      MakespanInWaves(start[1..], unit, w);
      EarlierWaveIsOver(start[0], unit, w);
    }
  }

  /** Whatever order greedy admission lets the jobs in, it finishes in exactly the time of the wave formula. */
  lemma GreedyTakesExactlyTheWaves(start: seq<nat>, unit: nat, slots: nat, budget: nat)
    requires unit > 0 && 0 < slots <= budget
    requires Feasible(start, unit, slots, budget) && Greedy(start, unit, slots, budget)
    ensures Quotient(budget, slots) >= 1
    ensures Makespan(start, unit) == CeilDiv(|start|, Quotient(budget, slots)) * unit
  {
    NoScheduleIsFaster(start, unit, slots, budget);
    var cap := Quotient(budget, slots);
    var w := CeilDiv(|start|, cap);
    CeilDivIsLeast(|start|, cap, w);
    GreedyFillsWaves(start, unit, slots, budget, w);
    StartedBeforeBound(start, unit, w);
    forall i | 0 <= i < |start| ensures start[i] < w * unit {
      QuotientBounds(start[i], unit);
      MulMonotone(Quotient(start[i], unit) + 1, w, unit);
    }
    MakespanInWaves(start, unit, w);
  }

  // ----- A greedy schedule exists, so the formula is attained -----

  function WaveSchedule(n: nat, cap: nat, unit: nat): seq<nat>
    requires cap > 0
  {
    seq(n, i requires 0 <= i < n => Quotient(i, cap) * unit)
  }

  /** The jobs of window `w` among the first `n`. */
  function WaveSize(n: nat, cap: nat, w: nat): nat {
    if n <= w * cap then 0 else Min(n - w * cap, cap)
  }

  lemma {:induction false} RunningSnoc(start: seq<nat>, s: nat, unit: nat, t: nat)
    ensures RunningAt(start + [s], unit, t) == RunningAt(start, unit, t) + if RunsAt(s, unit, t) then 1 else 0
  {
    if start == [] {
      assert [s][1..] == [];
    } else {
      assert (start + [s])[1..] == start[1..] + [s];
      RunningSnoc(start[1..], s, unit, t);
    }
  }

  /** A job started with window `v` runs at `t` exactly when `t` lies in that window. */
  lemma RunsInItsWindow(v: nat, unit: nat, t: nat)
    requires unit > 0
    ensures RunsAt(v * unit, unit, t) <==> v == Quotient(t, unit)
  {
    QuotientBounds(t, unit);
    OneMore(v, unit);
    if RunsAt(v * unit, unit, t) {
      QuotientUnique(t, unit, v);
    }
  }

  lemma WaveSizeNext(n: nat, cap: nat, w: nat)
    requires cap > 0
    ensures WaveSize(n + 1, cap, w) == WaveSize(n, cap, w) + if Quotient(n, cap) == w then 1 else 0
  {
    hide Quotient;
    OneMore(w, cap);
    QuotientBounds(n, cap);
    if w * cap <= n < (w + 1) * cap {
      QuotientUnique(n, cap, w);
    }
  }

  lemma {:induction false} WaveRunning(n: nat, cap: nat, unit: nat, t: nat)
    requires cap > 0 && unit > 0
    ensures RunningAt(WaveSchedule(n, cap, unit), unit, t) == WaveSize(n, cap, Quotient(t, unit))
  {
    hide Quotient, RunsAt;
    if n > 0 {
      assert WaveSchedule(n, cap, unit) == WaveSchedule(n - 1, cap, unit) + [Quotient(n - 1, cap) * unit];
      RunningSnoc(WaveSchedule(n - 1, cap, unit), Quotient(n - 1, cap) * unit, unit, t);
      WaveRunning(n - 1, cap, unit, t);
      RunsInItsWindow(Quotient(n - 1, cap), unit, t);
      WaveSizeNext(n - 1, cap, Quotient(t, unit));
    }
  }

  /** A job of a later window finds the present one full. */
  lemma EarlierWindowIsFull(i: nat, n: nat, cap: nat, unit: nat, t: nat)
    requires cap > 0 && unit > 0 && i < n && t < Quotient(i, cap) * unit
    ensures WaveSize(n, cap, Quotient(t, unit)) == cap
  {
    hide Quotient;
    var w := Quotient(t, unit);
    QuotientBounds(t, unit);
    MulMonotone(w, Quotient(i, cap), unit);
    QuotientBounds(i, cap);
    MulMonotone(w + 1, Quotient(i, cap), cap);
    OneMore(w, cap);
  }

  /** Starting full waves back to back stays within the budget, is greedy, and takes what the formula says. */
  lemma FormulaIsAttained(n: nat, unit: nat, slots: nat, budget: nat)
    requires unit > 0 && 0 < slots <= budget
    ensures Quotient(budget, slots) >= 1
    ensures var start := WaveSchedule(n, Quotient(budget, slots), unit);
      && |start| == n && Feasible(start, unit, slots, budget) && Greedy(start, unit, slots, budget)
      && Makespan(start, unit) == CeilDiv(n, Quotient(budget, slots)) * unit
  {
    hide Quotient, RunningAt;
    CapacityIsPositive(slots, budget);
    var cap := Quotient(budget, slots);
    var start := WaveSchedule(n, cap, unit);
    forall t: nat ensures slots * RunningAt(start, unit, t) <= budget {
      WaveRunning(n, cap, unit, t);
      SlotsToCapacity(RunningAt(start, unit, t), slots, budget);
    }
    forall i, t: nat | 0 <= i < |start| && t < start[i] ensures slots * RunningAt(start, unit, t) + slots > budget {
      WaveRunning(n, cap, unit, t);
      EarlierWindowIsFull(i, n, cap, unit, t);
      SlotsToCapacity(cap + 1, slots, budget);
      OneMore(cap, slots);
    }
    GreedyTakesExactlyTheWaves(start, unit, slots, budget);
  }
}
