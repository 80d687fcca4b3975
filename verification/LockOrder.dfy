/**
 * Locks and counted permits taken in increasing level by any number of tasks, some of which start
 * sub-tasks and wait for them. Waiting is first come, first served per lock, as in tokio.
 */
module LockOrder {
  import opened Common
  import opened Sums

  /** One enrichment owns its own fetch, host and pool locks; the others are shared by the process. */
  datatype Resource =
    | QuerySlots
    | FetchSlots(owner: nat)
    | HostSlots(owner: nat, host: string)
    | ChromePool(owner: nat)
    | LaunchGate
    | DisplayAlloc
    | CpuSlots

  function Level(r: Resource): nat {
    match r
    case QuerySlots => 1
    case FetchSlots(_) => 2
    case HostSlots(_, _) => 3
    case ChromePool(_) => 4
    case LaunchGate => 5
    case DisplayAlloc => 6
    case CpuSlots => 7
  }

  /** Levels ascend strictly from the query permits to the CPU gate, whichever owner and host. */
  lemma LevelsAscend(o: nat, p: nat, q: nat, host: string)
    ensures Level(QuerySlots) < Level(FetchSlots(o)) < Level(HostSlots(p, host)) < Level(ChromePool(q))
         && Level(ChromePool(q)) < Level(LaunchGate) < Level(DisplayAlloc) < Level(CpuSlots)
  {
  }

  /** How many permits each lock has; a mutex has one. */
  type Capacities = Resource -> nat

  /** What a task still has to do. `Nest` starts one task per child and then waits for all of them. */
  datatype Script =
    | End
    | Acquire(what: Resource, count: nat, next: Script)
    | Release(what: Resource, next: Script)
    | Nest(floor: nat, children: seq<Script>, next: Script)
    | Join(next: Script)

  datatype Task = Task(parent: Option<nat>, floor: nat, held: map<Resource, nat>, todo: Script, waiting: bool)

  /** The queue holds the waiting tasks of all locks in arrival order. */
  datatype State = State(tasks: seq<Task>, queue: seq<nat>)

  /**
   * The discipline: a lock is requested only above everything held and above the task's floor,
   * within its capacity, and sub-tasks start with a floor that no lock held by the parent exceeds.
   */
  ghost predicate Disciplined(cap: Capacities, floor: nat, held: set<Resource>, todo: Script)
    decreases todo
  {
    match todo
    case End => true
    case Acquire(r, n, next) =>
      floor < Level(r) && 1 <= n <= cap(r) && (forall h :: h in held ==> Level(h) < Level(r))
      && Disciplined(cap, floor, held + {r}, next)
    case Release(r, next) => Disciplined(cap, floor, held - {r}, next)
    case Nest(f, children, next) =>
      floor <= f && (forall h :: h in held ==> Level(h) <= f)
      && (forall k :: 0 <= k < |children| ==> Disciplined(cap, f, {}, children[k]))
      && Disciplined(cap, floor, held, next)
    case Join(next) => Disciplined(cap, floor, held, next)
  }

  function Amount(t: Task, r: Resource): nat {
    if r in t.held then t.held[r] else 0
  }

  function HeldBy(r: Resource): Task -> nat {
    (t: Task) => Amount(t, r)
  }

  function Held(s: State, r: Resource): nat {
    Sum(HeldBy(r), s.tasks)
  }

  predicate Done(t: Task) {
    t.todo.End? && t.held == map[]
  }

  predicate ChildrenDone(s: State, i: nat) {
    forall j :: 0 <= j < |s.tasks| && s.tasks[j].parent == Some(i) ==> Done(s.tasks[j])
  }

  // ----- Steps -----

  datatype Step =
    | Request(i: nat)
    | Grant(q: nat)
    | Drop(i: nat)
    | Spawn(i: nat)
    | Joined(i: nat)
    | Finish(i: nat)
    | Panic(i: nat)

  predicate Enabled(cap: Capacities, s: State, step: Step) {
    match step
    case Request(i) => i < |s.tasks| && s.tasks[i].todo.Acquire? && !s.tasks[i].waiting
    case Grant(q) =>
      && q < |s.queue| && s.queue[q] < |s.tasks|
      && var todo := s.tasks[s.queue[q]].todo;
         && todo.Acquire?
         && !WantedEarlier(s, q, todo.what)
         && Held(s, todo.what) + todo.count <= cap(todo.what)
    case Drop(i) => i < |s.tasks| && s.tasks[i].todo.Release?
    case Spawn(i) => i < |s.tasks| && s.tasks[i].todo.Nest?
    case Joined(i) => i < |s.tasks| && s.tasks[i].todo.Join? && ChildrenDone(s, i)
    case Finish(i) => i < |s.tasks| && s.tasks[i].todo.End? && s.tasks[i].held != map[]
    case Panic(i) => i < |s.tasks| && !Done(s.tasks[i])
  }

  predicate Wants(t: Task, r: Resource) {
    t.todo.Acquire? && t.todo.what == r
  }

  /** Somebody further ahead in the queue is waiting for the same lock. */
  predicate WantedEarlier(s: State, q: nat, r: Resource)
    requires q <= |s.queue|
  {
    exists p :: 0 <= p < q && s.queue[p] < |s.tasks| && Wants(s.tasks[s.queue[p]], r)
  }

  function Started(parent: nat, floor: nat, children: seq<Script>): seq<Task> {
    seq(|children|, k requires 0 <= k < |children| => Task(Some(parent), floor, map[], children[k], false))
  }

  function Without(queue: seq<nat>, i: nat): seq<nat> {
    if queue == [] then [] else if queue[0] == i then Without(queue[1..], i) else [queue[0]] + Without(queue[1..], i)
  }

  function Apply(cap: Capacities, s: State, step: Step): State
    requires Enabled(cap, s, step)
  {
    match step
    case Request(i) => State(s.tasks[i := s.tasks[i].(waiting := true)], s.queue + [i])
    case Grant(q) =>
      var i := s.queue[q]; var t := s.tasks[i];
      State(s.tasks[i := t.(held := t.held[t.todo.what := t.todo.count], todo := t.todo.next, waiting := false)],
            Without(s.queue, i))
    case Drop(i) =>
      var t := s.tasks[i];
      State(s.tasks[i := t.(held := t.held - {t.todo.what}, todo := t.todo.next)], s.queue)
    case Spawn(i) =>
      var t := s.tasks[i];
      State(s.tasks[i := t.(todo := Join(t.todo.next))] + Started(i, t.todo.floor, t.todo.children), s.queue)
    case Joined(i) => State(s.tasks[i := s.tasks[i].(todo := s.tasks[i].todo.next)], s.queue)
    case Finish(i) => State(s.tasks[i := s.tasks[i].(held := map[])], s.queue)
    case Panic(i) =>
      State(s.tasks[i := s.tasks[i].(held := map[], todo := End, waiting := false)], Without(s.queue, i))
  }

  /** The task a step moves. */
  function Mover(s: State, step: Step): nat {
    match step
    case Grant(q) => if q < |s.queue| then s.queue[q] else 0
    case Request(i) => i
    case Drop(i) => i
    case Spawn(i) => i
    case Joined(i) => i
    case Finish(i) => i
    case Panic(i) => i
  }

  // ----- The invariant -----

  ghost predicate TaskOk(cap: Capacities, t: Task) {
    && Disciplined(cap, t.floor, t.held.Keys, t.todo)
    && (t.waiting ==> t.todo.Acquire?)
  }

  /** A running sub-task belongs to a parent that is waiting for it, or gone, and stays above what it holds. */
  predicate ChildOk(p: Task, t: Task) {
    Done(p) || (p.todo.Join? && p.floor <= t.floor && forall h :: h in p.held ==> Level(h) <= t.floor)
  }

  predicate FamilyOk(tasks: seq<Task>, i: nat)
    requires i < |tasks|
  {
    tasks[i].parent.Some? && !Done(tasks[i]) ==>
      tasks[i].parent.value < i && ChildOk(tasks[tasks[i].parent.value], tasks[i])
  }

  predicate QueueOk(s: State) {
    && (forall i :: 0 <= i < |s.tasks| ==> (s.tasks[i].waiting <==> i in s.queue))
    && (forall q :: 0 <= q < |s.queue| ==> s.queue[q] < |s.tasks|)
  }

  ghost predicate CapacityOk(cap: Capacities, s: State) {
    forall r :: Held(s, r) <= cap(r)
  }

  ghost predicate Inv(cap: Capacities, s: State) {
    && (forall i :: 0 <= i < |s.tasks| ==> TaskOk(cap, s.tasks[i]))
    && (forall i :: 0 <= i < |s.tasks| ==> FamilyOk(s.tasks, i))
    && QueueOk(s)
    && CapacityOk(cap, s)
  }

  function Initial(scripts: seq<Script>): State {
    State(seq(|scripts|, i requires 0 <= i < |scripts| => Task(None, 0, map[], scripts[i], false)), [])
  }

  lemma InitialInv(cap: Capacities, scripts: seq<Script>)
    requires forall i :: 0 <= i < |scripts| ==> Disciplined(cap, 0, {}, scripts[i])
    ensures Inv(cap, Initial(scripts))
  {
    hide Disciplined;
    var s := Initial(scripts);
    forall r ensures Held(s, r) <= cap(r) {
      SumIsZero(HeldBy(r), s.tasks);
    }
    assert forall i :: 0 <= i < |s.tasks| ==> s.tasks[i].held.Keys == {};
  }

  lemma {:induction false} WithoutSpec(queue: seq<nat>, i: nat)
    ensures forall j :: j in Without(queue, i) <==> j in queue && j != i
  {
    if queue != [] {
      WithoutSpec(queue[1..], i);
      assert queue == [queue[0]] + queue[1..];
    }
  }

  // ----- Every step keeps the invariant -----

  lemma TaskOkStep(cap: Capacities, s: State, step: Step)
    requires Inv(cap, s) && Enabled(cap, s, step)
    ensures Mover(s, step) < |s.tasks| <= |Apply(cap, s, step).tasks|
    ensures TaskOk(cap, Apply(cap, s, step).tasks[Mover(s, step)])
  {
    var t := s.tasks[Mover(s, step)];
    var t' := Apply(cap, s, step).tasks[Mover(s, step)];
    assert TaskOk(cap, t);
    match step
    case Grant(q) => assert t'.held.Keys == t.held.Keys + {t.todo.what};
    case Drop(i) => assert t'.held.Keys == t.held.Keys - {t.todo.what};
    case _ =>
  }

  lemma AllTasksOk(cap: Capacities, s: State, step: Step)
    requires Inv(cap, s) && Enabled(cap, s, step)
    ensures forall i :: 0 <= i < |Apply(cap, s, step).tasks| ==> TaskOk(cap, Apply(cap, s, step).tasks[i])
  {
    TaskOkStep(cap, s, step);
    var s' := Apply(cap, s, step);
    forall i | 0 <= i < |s'.tasks| ensures TaskOk(cap, s'.tasks[i]) {
      if |s.tasks| <= i {
        var m := s.tasks[step.i];
        assert TaskOk(cap, m);
        var k := i - |s.tasks|;
        assert s'.tasks[i] == Started(step.i, m.todo.floor, m.todo.children)[k];
        assert Disciplined(cap, m.todo.floor, {}, m.todo.children[k]);
        assert s'.tasks[i].held.Keys == {};
      } else if i != Mover(s, step) {
        assert s'.tasks[i] == s.tasks[i];
      }
    }
  }

  lemma QueueStep(cap: Capacities, s: State, step: Step)
    requires Inv(cap, s) && Enabled(cap, s, step)
    ensures QueueOk(Apply(cap, s, step))
  {
    hide Disciplined, CapacityOk, FamilyOk;
    var m := Mover(s, step);
    WithoutSpec(s.queue, m);
    var s' := Apply(cap, s, step);
    assert TaskOk(cap, s.tasks[m]);
    forall i | 0 <= i < |s'.tasks| ensures s'.tasks[i].waiting <==> i in s'.queue {
      if i < |s.tasks| && i != m {
        assert s'.tasks[i] == s.tasks[i];
      }
    }
    forall q | 0 <= q < |s'.queue| ensures s'.queue[q] < |s'.tasks| {
      assert s'.queue[q] in s'.queue;
      assert s'.queue[q] in s.queue || s'.queue[q] == m;
    }
  }

  /** What the moving task holds of `r` grows only by a grant, and then by what is free. */
  lemma MoverHolds(cap: Capacities, s: State, step: Step, r: Resource)
    requires Inv(cap, s) && Enabled(cap, s, step)
    ensures Mover(s, step) < |s.tasks| <= |Apply(cap, s, step).tasks|
    ensures Held(s, r) + Amount(Apply(cap, s, step).tasks[Mover(s, step)], r)
         <= cap(r) + Amount(s.tasks[Mover(s, step)], r)
  {
    hide Disciplined, FamilyOk, Held, WantedEarlier;
    assert TaskOk(cap, s.tasks[Mover(s, step)]);
    assert Held(s, r) <= cap(r);
  }

  lemma HeldStep(cap: Capacities, s: State, step: Step, r: Resource)
    requires Inv(cap, s) && Enabled(cap, s, step)
    ensures Held(Apply(cap, s, step), r) <= cap(r)
  {
    MoverHolds(cap, s, step, r);
    hide Inv, Enabled, Amount;
    var m := Mover(s, step);
    var s' := Apply(cap, s, step);
    SumUpdate(HeldBy(r), s.tasks, m, s'.tasks[m]);
    if step.Spawn? {
      StartedHoldNothing(m, s.tasks[m].todo.floor, s.tasks[m].todo.children, r);
      SumConcat(HeldBy(r), s.tasks[m := s'.tasks[m]], Started(m, s.tasks[m].todo.floor, s.tasks[m].todo.children));
    }
  }

  lemma StartedHoldNothing(parent: nat, floor: nat, children: seq<Script>, r: Resource)
    ensures Sum(HeldBy(r), Started(parent, floor, children)) == 0
  {
    SumIsZero(HeldBy(r), Started(parent, floor, children));
  }

  lemma FamilyStep(cap: Capacities, s: State, step: Step)
    requires Inv(cap, s) && Enabled(cap, s, step)
    ensures forall i :: 0 <= i < |Apply(cap, s, step).tasks| ==> FamilyOk(Apply(cap, s, step).tasks, i)
  {
    hide CapacityOk;
    var m := Mover(s, step);
    var s' := Apply(cap, s, step);
    var t, t' := s.tasks[m], s'.tasks[m];
    assert TaskOk(cap, t);
    assert t'.parent == t.parent && t'.floor == t.floor && (Done(t) ==> step.Request? || t == t');
    forall i | 0 <= i < |s'.tasks| ensures FamilyOk(s'.tasks, i) {
      if i < |s.tasks| {
        assert FamilyOk(s.tasks, i);
        assert i != m ==> s'.tasks[i] == s.tasks[i];
        if s'.tasks[i].parent.Some? && !Done(s'.tasks[i]) {
          assert !Done(s.tasks[i]);
          var p := s.tasks[i].parent.value;
          if p == m {
            assert s.tasks[i].parent == Some(m);
            if step.Joined? {
              assert false;
            }
          }
        }
      } else {
        assert s'.tasks[i] == Started(m, t.todo.floor, t.todo.children)[i - |s.tasks|];
      }
    }
  }

  lemma StepKeepsInv(cap: Capacities, s: State, step: Step)
    requires Inv(cap, s) && Enabled(cap, s, step)
    ensures Inv(cap, Apply(cap, s, step))
  {
    AllTasksOk(cap, s, step);
    FamilyStep(cap, s, step);
    QueueStep(cap, s, step);
    forall r ensures Held(Apply(cap, s, step), r) <= cap(r) {
      HeldStep(cap, s, step, r);
    }
  }

  // ----- No reachable state is stuck -----

  predicate Blocked(cap: Capacities, s: State, i: nat)
    requires i < |s.tasks|
  {
    && !Enabled(cap, s, Request(i)) && !Enabled(cap, s, Drop(i)) && !Enabled(cap, s, Spawn(i))
    && !Enabled(cap, s, Joined(i)) && !Enabled(cap, s, Finish(i))
  }

  /** Nothing but a panic can happen any more. */
  ghost predicate Stuck(cap: Capacities, s: State) {
    && (forall i :: 0 <= i < |s.tasks| ==> Blocked(cap, s, i))
    && (forall q :: 0 <= q < |s.queue| ==> !Enabled(cap, s, Grant(q)))
  }

  /** A blocked task waits in a queue or for an unfinished sub-task with a larger index. */
  lemma BlockedTask(cap: Capacities, s: State, i: nat) returns (child: nat)
    requires Inv(cap, s) && i < |s.tasks| && !Done(s.tasks[i]) && Blocked(cap, s, i)
    ensures s.tasks[i].waiting || (i < child < |s.tasks| && s.tasks[i].todo.Join?
              && s.tasks[child].parent == Some(i) && !Done(s.tasks[child]))
  {
    hide Disciplined, CapacityOk, QueueOk;
    child := 0;
    if s.tasks[i].todo.Join? {
      assert !ChildrenDone(s, i);
      child :| 0 <= child < |s.tasks| && s.tasks[child].parent == Some(i) && !Done(s.tasks[child]);
      assert FamilyOk(s.tasks, child);
    }
  }

  /** Below every unfinished task of a stuck state there is one that waits in a queue, with no lower floor. */
  lemma {:induction false} QueuedDescendant(cap: Capacities, s: State, i: nat) returns (d: nat)
    requires Inv(cap, s) && Stuck(cap, s) && i < |s.tasks| && !Done(s.tasks[i])
    ensures d < |s.tasks| && s.tasks[d].waiting && s.tasks[i].floor <= s.tasks[d].floor
    ensures !s.tasks[i].waiting ==> forall h :: h in s.tasks[i].held ==> Level(h) <= s.tasks[d].floor
    ensures s.tasks[i].waiting ==> d == i
    decreases |s.tasks| - i
  {
    hide Disciplined, CapacityOk, QueueOk, Enabled;
    var child := BlockedTask(cap, s, i);
    d := i;
    if !s.tasks[i].waiting {
      assert FamilyOk(s.tasks, child);
      d := QueuedDescendant(cap, s, child);
    }
  }

  lemma WaitingWants(cap: Capacities, s: State, i: nat)
    requires Inv(cap, s) && i < |s.tasks| && s.tasks[i].waiting
    ensures s.tasks[i].todo.Acquire? && 1 <= s.tasks[i].todo.count <= cap(s.tasks[i].todo.what)
    ensures s.tasks[i].floor < Level(s.tasks[i].todo.what)
    ensures forall h :: h in s.tasks[i].held ==> Level(h) < Level(s.tasks[i].todo.what)
  {
    assert TaskOk(cap, s.tasks[i]);
    assert forall h :: h in s.tasks[i].held ==> h in s.tasks[i].held.Keys;
  }

  /** Of the waiting tasks, one whose wanted lock has the highest level. */
  lemma {:induction false} HighestWanted(s: State, n: nat) returns (best: nat)
    requires n <= |s.tasks|
    requires forall i :: 0 <= i < |s.tasks| && s.tasks[i].waiting ==> s.tasks[i].todo.Acquire?
    requires exists i :: 0 <= i < n && s.tasks[i].waiting
    ensures best < n && s.tasks[best].waiting
    ensures forall i :: 0 <= i < n && s.tasks[i].waiting
              ==> Level(s.tasks[i].todo.what) <= Level(s.tasks[best].todo.what)
  {
    hide Level;
    if exists i :: 0 <= i < n - 1 && s.tasks[i].waiting {
      best := HighestWanted(s, n - 1);
      if s.tasks[n - 1].waiting && Level(s.tasks[best].todo.what) < Level(s.tasks[n - 1].todo.what) {
        best := n - 1;
      }
    } else {
      best := n - 1;
    }
  }

  /** The first in line for `r`. */
  lemma {:induction false} FirstInLine(s: State, r: Resource, q: nat) returns (f: nat)
    requires q < |s.queue| && s.queue[q] < |s.tasks| && Wants(s.tasks[s.queue[q]], r)
    ensures f < |s.queue| && s.queue[f] < |s.tasks| && Wants(s.tasks[s.queue[f]], r) && !WantedEarlier(s, f, r)
  {
    if WantedEarlier(s, q, r) {
      var p :| 0 <= p < q && s.queue[p] < |s.tasks| && Wants(s.tasks[s.queue[p]], r);
      f := FirstInLine(s, r, p);
    } else {
      f := q;
    }
  }

  /** In a stuck state nobody holds the highest lock anyone waits for. */
  lemma HighestIsFree(cap: Capacities, s: State, best: nat)
    requires Inv(cap, s) && Stuck(cap, s)
    requires best < |s.tasks| && s.tasks[best].waiting && s.tasks[best].todo.Acquire?
    requires forall i :: 0 <= i < |s.tasks| && s.tasks[i].waiting && s.tasks[i].todo.Acquire?
               ==> Level(s.tasks[i].todo.what) <= Level(s.tasks[best].todo.what)
    ensures Held(s, s.tasks[best].todo.what) == 0
  {
    hide Disciplined, Stuck, Inv, Level;
    var r := s.tasks[best].todo.what;
    forall i | 0 <= i < |s.tasks| ensures HeldBy(r)(s.tasks[i]) == 0 {
      if !Done(s.tasks[i]) {
        var d := QueuedDescendant(cap, s, i);
        WaitingWants(cap, s, d);
        assert Level(s.tasks[d].todo.what) <= Level(r);
        if s.tasks[i].waiting {
          assert r !in s.tasks[i].held;
        } else {
          assert r !in s.tasks[i].held;
        }
      }
    }
    SumIsZero(HeldBy(r), s.tasks);
  }

  /** If nobody holds a lock that somebody waits for, the first in line for it can be served. */
  lemma FreeLockIsGranted(cap: Capacities, s: State, i: nat) returns (f: nat)
    requires Inv(cap, s) && i < |s.tasks| && s.tasks[i].waiting && s.tasks[i].todo.Acquire?
    requires Held(s, s.tasks[i].todo.what) == 0
    ensures f < |s.queue| && Enabled(cap, s, Grant(f))
  {
    hide Disciplined, CapacityOk, Level, Held;
    assert i in s.queue;
    var q :| 0 <= q < |s.queue| && s.queue[q] == i;
    f := FirstInLine(s, s.tasks[i].todo.what, q);
    assert s.queue[f] in s.queue;
    WaitingWants(cap, s, s.queue[f]);
  }

  /** Deadlock freedom: as long as some task is unfinished, something other than a panic can happen. */
  lemma NeverStuck(cap: Capacities, s: State, i: nat)
    requires Inv(cap, s) && i < |s.tasks| && !Done(s.tasks[i])
    ensures !Stuck(cap, s)
  {
    if Stuck(cap, s) {
      var d := QueuedDescendant(cap, s, i);
      forall j | 0 <= j < |s.tasks| && s.tasks[j].waiting ensures s.tasks[j].todo.Acquire? {
        WaitingWants(cap, s, j);
      }
      var best := HighestWanted(s, |s.tasks|);
      HighestIsFree(cap, s, best);
      var f := FreeLockIsGranted(cap, s, best);
    }
  }

  // ----- Every run ends, with everything given back -----

  function Weight(todo: Script): nat {
    match todo
    case End => 0
    case Acquire(_, _, next) => 3 + Weight(next)
    case Release(_, next) => 1 + Weight(next)
    case Nest(_, children, next) => 2 + WeightOfAll(children) + Weight(next)
    case Join(next) => 1 + Weight(next)
  }

  function WeightOfAll(scripts: seq<Script>): nat {
    if scripts == [] then 0 else Weight(scripts[0]) + WeightOfAll(scripts[1..])
  }

  function TaskWeight(t: Task): nat {
    var w := Weight(t.todo) + if t.held == map[] then 0 else 1;
    if t.waiting && w > 0 then w - 1 else w
  }

  function Measure(s: State): nat {
    Sum(TaskWeight, s.tasks)
  }

  lemma {:induction false} StartedWeight(parent: nat, floor: nat, children: seq<Script>)
    ensures Sum(TaskWeight, Started(parent, floor, children)) == WeightOfAll(children)
  {
    if children != [] {
      StartedWeight(parent, floor, children[1..]);
      assert Started(parent, floor, children)[1..] == Started(parent, floor, children[1..]);
    }
  }

  lemma StepDecreases(cap: Capacities, s: State, step: Step)
    requires Inv(cap, s) && Enabled(cap, s, step)
    ensures Measure(Apply(cap, s, step)) < Measure(s)
  {
    hide Disciplined, CapacityOk, FamilyOk;
    var m := Mover(s, step);
    var s' := Apply(cap, s, step);
    assert TaskOk(cap, s.tasks[m]);
    if step.Grant? {
      assert s.tasks[m].waiting by { assert m in s.queue; }
    }
    SumUpdate(TaskWeight, s.tasks, m, s'.tasks[m]);
    if step.Spawn? {
      var started := Started(m, s.tasks[m].todo.floor, s.tasks[m].todo.children);
      SumConcat(TaskWeight, s.tasks[m := s'.tasks[m]], started);
      StartedWeight(m, s.tasks[m].todo.floor, s.tasks[m].todo.children);
    }
  }

  ghost predicate IsRun(cap: Capacities, s: State, steps: seq<Step>)
    decreases steps
  {
    steps == [] || (Enabled(cap, s, steps[0]) && IsRun(cap, Apply(cap, s, steps[0]), steps[1..]))
  }

  ghost function Final(cap: Capacities, s: State, steps: seq<Step>): State
    requires IsRun(cap, s, steps)
    decreases steps
  {
    if steps == [] then s else Final(cap, Apply(cap, s, steps[0]), steps[1..])
  }

  lemma {:induction false} RunKeepsInv(cap: Capacities, s: State, steps: seq<Step>)
    requires Inv(cap, s) && IsRun(cap, s, steps)
    ensures Inv(cap, Final(cap, s, steps))
    ensures |steps| + Measure(Final(cap, s, steps)) <= Measure(s)
    decreases steps
  {
    hide Inv, Apply, Enabled, Measure;
    if steps != [] {
      StepKeepsInv(cap, s, steps[0]);
      StepDecreases(cap, s, steps[0]);
      RunKeepsInv(cap, Apply(cap, s, steps[0]), steps[1..]);
    }
  }

  /**
   * Whatever the interleaving and whoever panics: at no point of a run is a lock over-committed,
   * the run is no longer than the work its scripts contain, and a run that can only be continued
   * by panics has finished every task and returned every permit.
   */
  lemma DisciplinedTasksAlwaysFinish(cap: Capacities, scripts: seq<Script>, steps: seq<Step>)
    requires forall i :: 0 <= i < |scripts| ==> Disciplined(cap, 0, {}, scripts[i])
    requires IsRun(cap, Initial(scripts), steps)
    ensures var last := Final(cap, Initial(scripts), steps);
      && (forall r :: Held(last, r) <= cap(r))
      && (Stuck(cap, last) ==>
            (forall i :: 0 <= i < |last.tasks| ==> Done(last.tasks[i])) && (forall r :: Held(last, r) == 0))
    ensures |steps| <= WeightOfAll(scripts)
  {
    hide Disciplined, Stuck, TaskOk, FamilyOk, QueueOk, IsRun, Final;
    InitialInv(cap, scripts);
    InitialWeight(scripts);
    RunKeepsInv(cap, Initial(scripts), steps);
    var last := Final(cap, Initial(scripts), steps);
    if Stuck(cap, last) {
      forall i | 0 <= i < |last.tasks| ensures Done(last.tasks[i]) {
        if !Done(last.tasks[i]) {
          NeverStuck(cap, last, i);
        }
      }
      forall r ensures Held(last, r) == 0 {
        SumIsZero(HeldBy(r), last.tasks);
      }
    }
  }

  lemma {:induction false} InitialWeight(scripts: seq<Script>)
    ensures Measure(Initial(scripts)) == WeightOfAll(scripts)
  {
    if scripts != [] {
      InitialWeight(scripts[1..]);
      assert Initial(scripts).tasks[1..] == Initial(scripts[1..]).tasks;
    }
  }

  lemma PickEnabled(cap: Capacities, s: State) returns (step: Step)
    requires !Stuck(cap, s)
    ensures Enabled(cap, s, step) && !step.Panic?
  {
    hide Enabled;
    if i :| 0 <= i < |s.tasks| && !Blocked(cap, s, i) {
      step := if Enabled(cap, s, Request(i)) then Request(i)
              else if Enabled(cap, s, Drop(i)) then Drop(i)
              else if Enabled(cap, s, Spawn(i)) then Spawn(i)
              else if Enabled(cap, s, Joined(i)) then Joined(i) else Finish(i);
    } else {
      var q :| 0 <= q < |s.queue| && Enabled(cap, s, Grant(q));
      step := Grant(q);
    }
  }

  /** From every reachable state the remaining work can be done without anyone panicking. */
  lemma {:induction false} CanFinish(cap: Capacities, s: State) returns (steps: seq<Step>)
    requires Inv(cap, s)
    ensures IsRun(cap, s, steps) && forall x :: x in steps ==> !x.Panic?
    ensures forall i :: 0 <= i < |Final(cap, s, steps).tasks| ==> Done(Final(cap, s, steps).tasks[i])
    decreases Measure(s)
  {
    hide Enabled, Apply, Inv, Stuck, Measure;
    if i :| 0 <= i < |s.tasks| && !Done(s.tasks[i]) {
      NeverStuck(cap, s, i);
      var step := PickEnabled(cap, s);
      StepKeepsInv(cap, s, step);
      StepDecreases(cap, s, step);
      var rest := CanFinish(cap, Apply(cap, s, step));
      steps := [step] + rest;
      assert steps[1..] == rest;
    } else {
      steps := [];
    }
  }

  // ----- A request above capacity -----

  /** Task `i` wants more permits of a lock than exist, and nobody panics it. */
  predicate AsksTooMuch(cap: Capacities, s: State, i: nat) {
    i < |s.tasks| && s.tasks[i].todo.Acquire? && s.tasks[i].todo.count > cap(s.tasks[i].todo.what)
  }

  lemma {:induction false} BlocksForever(cap: Capacities, s: State, i: nat, steps: seq<Step>)
    requires AsksTooMuch(cap, s, i) && IsRun(cap, s, steps) && Panic(i) !in steps
    ensures var last := Final(cap, s, steps);
      i < |last.tasks| && last.tasks[i].todo == s.tasks[i].todo && last.tasks[i].held == s.tasks[i].held
    decreases steps
  {
    if steps != [] {
      assert steps[0] in steps && forall x :: x in steps[1..] ==> x in steps;
      BlocksForever(cap, Apply(cap, s, steps[0]), i, steps[1..]);
    }
  }
}
