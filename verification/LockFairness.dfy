/** First come, first served: nobody who asks later is given a lock before somebody who already waits for it. */
module LockFairness {
  import opened LockOrder

  /** `b` stands before `a` in the queue. */
  ghost predicate Ahead(queue: seq<nat>, b: nat, a: nat) {
    exists p, q :: 0 <= p < q < |queue| && queue[p] == b && queue[q] == a
  }

  lemma {:induction false} WithoutKeepsOrder(queue: seq<nat>, i: nat, p: nat, q: nat) returns (p': nat, q': nat)
    requires p < q < |Without(queue, i)|
    ensures p' < q' < |queue| && queue[p'] == Without(queue, i)[p] && queue[q'] == Without(queue, i)[q]
  {
    if queue[0] == i {
      p', q' := WithoutKeepsOrder(queue[1..], i, p, q);
      p', q' := p' + 1, q' + 1;
    } else if p == 0 {
      assert Without(queue, i)[q] in Without(queue[1..], i);
      WithoutSpec(queue[1..], i);
      p' := 0;
      q' :| 0 <= q' < |queue[1..]| && queue[1..][q'] == Without(queue, i)[q];
      q' := q' + 1;
    } else {
      p', q' := WithoutKeepsOrder(queue[1..], i, p - 1, q - 1);
      p', q' := p' + 1, q' + 1;
    }
  }

  /** The task goes on waiting throughout the run. */
  ghost predicate StillWaits(cap: Capacities, s: State, steps: seq<Step>, a: nat)
    requires IsRun(cap, s, steps)
    decreases steps
  {
    && a < |s.tasks| && s.tasks[a].waiting
    && (steps != [] ==> StillWaits(cap, Apply(cap, s, steps[0]), steps[1..], a))
  }

  /** No step puts anyone before a task that goes on waiting. */
  lemma NobodyGetsAhead(cap: Capacities, s: State, step: Step, a: nat, b: nat)
    requires Inv(cap, s) && Enabled(cap, s, step) && a < |s.tasks| && s.tasks[a].waiting
    requires a < |Apply(cap, s, step).tasks| && Apply(cap, s, step).tasks[a].waiting
    requires Ahead(Apply(cap, s, step).queue, b, a)
    ensures Ahead(s.queue, b, a)
  {
    hide Disciplined, CapacityOk, FamilyOk, WantedEarlier, Held;
    var queue := Apply(cap, s, step).queue;
    var p: nat, q: nat :| 0 <= p < q < |queue| && queue[p] == b && queue[q] == a;
    if step.Grant? || step.Panic? {
      var p', q' := WithoutKeepsOrder(s.queue, Mover(s, step), p, q);
    } else if step.Request? {
      assert queue == s.queue + [step.i] && step.i != a;
    }
  }

  lemma {:induction false} NobodyGotAhead(cap: Capacities, s: State, steps: seq<Step>, a: nat, b: nat)
    requires Inv(cap, s) && IsRun(cap, s, steps) && StillWaits(cap, s, steps, a)
    requires Ahead(Final(cap, s, steps).queue, b, a)
    ensures Ahead(s.queue, b, a)
    decreases steps
  {
    hide Inv, Enabled, Apply, Ahead;
    if steps != [] {
      StepKeepsInv(cap, s, steps[0]);
      NobodyGotAhead(cap, Apply(cap, s, steps[0]), steps[1..], a, b);
      NobodyGetsAhead(cap, s, steps[0], a, b);
    }
  }

  /** Whoever is served while `a` waits for the same lock stands before `a`. */
  lemma ServedIsAhead(cap: Capacities, s: State, q: nat, a: nat)
    requires Inv(cap, s) && Enabled(cap, s, Grant(q)) && a < |s.tasks| && s.tasks[a].waiting && s.queue[q] != a
    requires s.tasks[s.queue[q]].todo.what == s.tasks[a].todo.what
    ensures q < |s.queue| && Ahead(s.queue, s.queue[q], a)
  {
    hide Disciplined, CapacityOk, FamilyOk, Held;
    assert a in s.queue;
    var p :| 0 <= p < |s.queue| && s.queue[p] == a;
    assert TaskOk(cap, s.tasks[a]);
    assert q < p;
  }

  /**
   * As long as task `a` waits, every other task that is given the lock `a` waits for stood in the queue
   * before `a` when the run began.
   */
  lemma FirstComeFirstServed(cap: Capacities, s: State, steps: seq<Step>, a: nat, q: nat)
    requires Inv(cap, s) && IsRun(cap, s, steps) && StillWaits(cap, s, steps, a)
    requires var t := Final(cap, s, steps); Enabled(cap, t, Grant(q)) && a < |t.tasks| && t.tasks[a].waiting
    requires var t := Final(cap, s, steps);
             t.tasks[a].todo.Acquire? && t.tasks[t.queue[q]].todo.what == t.tasks[a].todo.what && t.queue[q] != a
    ensures Ahead(s.queue, Final(cap, s, steps).queue[q], a)
  {
    hide Inv, Enabled, Apply, Ahead, Final;
    RunKeepsInv(cap, s, steps);
    var t := Final(cap, s, steps);
    ServedIsAhead(cap, t, q, a);
    NobodyGotAhead(cap, s, steps, a, t.queue[q]);
  }
}
