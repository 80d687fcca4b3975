/** The locks that the query fan-out and its nested fetches really take, as scripts of the lock-order machine. */
module FanoutLocks {
  import opened Common
  import opened Concurrency
  import opened LockOrder

  /** Probing the browser version on the CPU pool, then the single-flight launch with its display. */
  function LaunchScript(): Script {
    Acquire(CpuSlots, 1, Release(CpuSlots,
      Acquire(LaunchGate, 1, Acquire(DisplayAlloc, 1, Release(DisplayAlloc, Release(LaunchGate, End))))))
  }

  /** One nested page fetch; a browser is popped from the pool and pushed back under the pool lock. */
  function FetchScript(owner: nat, host: string): Script {
    Acquire(FetchSlots(owner), 1, Acquire(HostSlots(owner, host), 1,
      Acquire(ChromePool(owner), 1, Release(ChromePool(owner),
        Acquire(ChromePool(owner), 1, Release(ChromePool(owner),
          Release(HostSlots(owner, host), Release(FetchSlots(owner), End))))))))
  }

  function FetchScripts(owner: nat, hosts: seq<string>): seq<Script> {
    seq(|hosts|, k requires 0 <= k < |hosts| => FetchScript(owner, hosts[k]))
  }

  /** A query task holds its slots throughout: SERP browsers, parsing, pool launch, nested fetches. */
  function QueryScript(slots: nat, owner: nat, hosts: seq<string>): Script {
    Acquire(QuerySlots, slots,
      Nest(1, seq(slots, _ => LaunchScript()),
        Acquire(CpuSlots, 1, Release(CpuSlots,
          Nest(1, [LaunchScript()],
            Nest(1, FetchScripts(owner, hosts),
              Acquire(ChromePool(owner), 1, Release(ChromePool(owner),
                Release(QuerySlots, End)))))))))
  }

  ghost predicate RealCapacities(cap: Capacities, parallelism: nat) {
    && cap(QuerySlots) == EffectiveConcurrency(parallelism)
    && cap(LaunchGate) == 1 && cap(DisplayAlloc) == 1 && cap(CpuSlots) >= 2
    && (forall o :: cap(FetchSlots(o)) >= 1)
    && (forall o, h :: cap(HostSlots(o, h)) >= 1)
    && (forall o :: cap(ChromePool(o)) == 1)
  }

  lemma LaunchDisciplined(cap: Capacities, parallelism: nat)
    requires RealCapacities(cap, parallelism)
    ensures Disciplined(cap, 1, {}, LaunchScript())
  {
    var end := Release(LaunchGate, End);
    assert Disciplined(cap, 1, {LaunchGate}, end);
    assert {LaunchGate, DisplayAlloc} - {DisplayAlloc} == {LaunchGate};
    assert {LaunchGate} + {DisplayAlloc} == {LaunchGate, DisplayAlloc};
    var display := Acquire(DisplayAlloc, 1, Release(DisplayAlloc, end));
    assert Disciplined(cap, 1, {LaunchGate}, display);
    assert {} + {LaunchGate} == {LaunchGate};
    var gate := Acquire(LaunchGate, 1, display);
    assert Disciplined(cap, 1, {}, gate);
    assert {} + {CpuSlots} - {CpuSlots} == {};
  }

  /** Taking the pool lock for a moment changes nothing for what follows. */
  lemma PoolVisit(cap: Capacities, parallelism: nat, floor: nat, held: set<Resource>, owner: nat, next: Script)
    requires RealCapacities(cap, parallelism) && floor < 4
    requires forall h :: h in held ==> Level(h) < 4
    requires Disciplined(cap, floor, held, next)
    ensures Disciplined(cap, floor, held, Acquire(ChromePool(owner), 1, Release(ChromePool(owner), next)))
  {
    assert ChromePool(owner) !in held;
    assert held + {ChromePool(owner)} - {ChromePool(owner)} == held;
  }

  lemma FetchDisciplined(cap: Capacities, parallelism: nat, owner: nat, host: string)
    requires RealCapacities(cap, parallelism)
    ensures Disciplined(cap, 1, {}, FetchScript(owner, host))
  {
    var fetch, site := FetchSlots(owner), HostSlots(owner, host);
    assert {} + {fetch} == {fetch} && {fetch} + {site} == {fetch, site} && {fetch, site} - {site} == {fetch};
    var end := Release(site, Release(fetch, End));
    assert Disciplined(cap, 1, {fetch}, Release(fetch, End));
    assert Disciplined(cap, 1, {fetch, site}, end);
    PoolVisit(cap, parallelism, 1, {fetch, site}, owner, end);
    var once := Acquire(ChromePool(owner), 1, Release(ChromePool(owner), end));
    PoolVisit(cap, parallelism, 1, {fetch, site}, owner, once);
    var twice := Acquire(ChromePool(owner), 1, Release(ChromePool(owner), once));
    assert Disciplined(cap, 1, {fetch}, Acquire(site, 1, twice));
  }

  /** A query task keeps the discipline exactly when its slots fit the query semaphore. */
  lemma QueryDisciplined(cap: Capacities, parallelism: nat, slots: nat, owner: nat, hosts: seq<string>)
    requires RealCapacities(cap, parallelism) && slots >= 1
    ensures Disciplined(cap, 0, {}, QueryScript(slots, owner, hosts)) <==> slots <= EffectiveConcurrency(parallelism)
  {
    hide LaunchScript, FetchScript, EffectiveConcurrency;
    var held := {QuerySlots};
    LaunchDisciplined(cap, parallelism);
    forall k | 0 <= k < |hosts| ensures Disciplined(cap, 1, {}, FetchScripts(owner, hosts)[k]) {
      FetchDisciplined(cap, parallelism, owner, hosts[k]);
    }
    var end := Release(QuerySlots, End);
    assert Disciplined(cap, 0, held, end);
    PoolVisit(cap, parallelism, 0, held, owner, end);
    assert Requested(Release(QuerySlots, End)) == {};
    assert Requested(Release(ChromePool(owner), Release(QuerySlots, End))) == {};
    var drain := Acquire(ChromePool(owner), 1, Release(ChromePool(owner), end));
    var fetches := Nest(1, FetchScripts(owner, hosts), drain);
    assert Disciplined(cap, 0, held, fetches);
    var pool := Nest(1, [LaunchScript()], fetches);
    assert Disciplined(cap, 0, held, pool);
    assert held + {CpuSlots} - {CpuSlots} == held;
    var parse := Acquire(CpuSlots, 1, Release(CpuSlots, pool));
    assert Disciplined(cap, 0, held, parse);
    var search := Nest(1, seq(slots, _ => LaunchScript()), parse);
    assert Disciplined(cap, 0, held, search);
    assert {} + {QuerySlots} == held;
  }

  /** One query task per list of hosts to fetch from. */
  function Fanout(slots: nat, hosts: seq<seq<string>>): seq<Script> {
    seq(|hosts|, i requires 0 <= i < |hosts| => QueryScript(slots, i, hosts[i]))
  }

  /**
   * In automatic mode every run of a fan-out, with any interleaving, early return or panic, can go
   * on until all tasks and sub-tasks are finished, and then every permit of every lock is back.
   */
  lemma AutomaticFanoutFinishes(cap: Capacities, parallelism: nat, shared: bool, web: bool, news: bool,
                                hosts: seq<seq<string>>, steps: seq<Step>)
    requires RealCapacities(cap, parallelism)
    requires IsRun(cap, Initial(Fanout(Slots(parallelism, Auto, shared, web, news), hosts)), steps)
    ensures var last := Final(cap, Initial(Fanout(Slots(parallelism, Auto, shared, web, news), hosts)), steps);
      && (forall r :: Held(last, r) <= cap(r))
      && (Stuck(cap, last) ==>
            (forall i :: 0 <= i < |last.tasks| ==> Done(last.tasks[i])) && (forall r :: Held(last, r) == 0))
  {
    hide QueryScript, Disciplined, Stuck;
    var slots := Slots(parallelism, Auto, shared, web, news);
    SlotsFitExactly(parallelism, Auto, shared, web, news);
    forall i | 0 <= i < |hosts| ensures Disciplined(cap, 0, {}, Fanout(slots, hosts)[i]) {
      QueryDisciplined(cap, parallelism, slots, i, hosts[i]);
    }
    DisciplinedTasksAlwaysFinish(cap, Fanout(slots, hosts), steps);
  }

  /** Two forced browsers under a parallelism of at most 1: no query is ever admitted, in any run. */
  lemma ForcedDualNeverStarts(cap: Capacities, parallelism: nat, hosts: seq<seq<string>>, steps: seq<Step>, i: nat)
    requires RealCapacities(cap, parallelism) && parallelism <= 1 && i < |hosts|
    requires IsRun(cap, Initial(Fanout(Slots(parallelism, ForceDual, false, true, true), hosts)), steps)
    requires Panic(i) !in steps
    ensures var last := Final(cap, Initial(Fanout(Slots(parallelism, ForceDual, false, true, true), hosts)), steps);
      i < |last.tasks| && last.tasks[i].held == map[] && last.tasks[i].todo.Acquire? && !Done(last.tasks[i])
  {
    var slots := Slots(parallelism, ForceDual, false, true, true);
    SlotsFitExactly(parallelism, ForceDual, false, true, true);
    BlocksForever(cap, Initial(Fanout(slots, hosts)), i, steps);
  }

  // ----- What a task takes in all -----

  /** Every lock a script or one of its sub-tasks requests. */
  function Requested(todo: Script): set<Resource> {
    match todo
    case End => {}
    case Acquire(r, _, next) => {r} + Requested(next)
    case Release(_, next) => Requested(next)
    case Nest(_, children, next) => RequestedByAll(children) + Requested(next)
    case Join(next) => Requested(next)
  }

  function RequestedByAll(scripts: seq<Script>): set<Resource> {
    if scripts == [] then {} else Requested(scripts[0]) + RequestedByAll(scripts[1..])
  }

  lemma LaunchTakes()
    ensures Requested(LaunchScript()) == {CpuSlots, LaunchGate, DisplayAlloc}
  {
  }

  lemma FetchTakes(owner: nat, host: string)
    ensures Requested(FetchScript(owner, host)) == {FetchSlots(owner), HostSlots(owner, host), ChromePool(owner)}
  {
    var end := Release(HostSlots(owner, host), Release(FetchSlots(owner), End));
    assert Requested(Release(FetchSlots(owner), End)) == {};
    assert Requested(end) == {};
    var push := Acquire(ChromePool(owner), 1, Release(ChromePool(owner), end));
    assert Requested(push) == {ChromePool(owner)};
    var pop := Acquire(ChromePool(owner), 1, Release(ChromePool(owner), push));
    assert Requested(pop) == {ChromePool(owner)};
    assert FetchScript(owner, host) == Acquire(FetchSlots(owner), 1, Acquire(HostSlots(owner, host), 1, pop));
  }

  lemma {:induction false} LaunchesTake(n: nat)
    ensures RequestedByAll(seq(n, _ => LaunchScript())) == if n == 0 then {} else {CpuSlots, LaunchGate, DisplayAlloc}
  {
    LaunchTakes();
    hide LaunchScript, Requested;
    if n > 0 {
      assert seq(n, _ => LaunchScript())[1..] == seq(n - 1, _ => LaunchScript());
      LaunchesTake(n - 1);
    }
  }

  lemma {:induction false} FetchesTake(owner: nat, hosts: seq<string>, r: Resource)
    ensures r in RequestedByAll(FetchScripts(owner, hosts)) <==>
      || (hosts != [] && (r == FetchSlots(owner) || r == ChromePool(owner)))
      || (r.HostSlots? && r.owner == owner && r.host in hosts)
  {
    hide FetchScript, Requested;
    if hosts != [] {
      assert FetchScripts(owner, hosts)[1..] == FetchScripts(owner, hosts[1..]);
      FetchTakes(owner, hosts[0]);
      FetchesTake(owner, hosts[1..], r);
      assert hosts == [hosts[0]] + hosts[1..];
    }
  }

  /** A query takes its slots, whatever a launch takes, its pool and, for every page, the fetch and host permits. */
  lemma QueryTakes(slots: nat, owner: nat, hosts: seq<string>, r: Resource)
    ensures r in Requested(QueryScript(slots, owner, hosts)) <==>
      || r in {QuerySlots, CpuSlots, LaunchGate, DisplayAlloc, ChromePool(owner)}
      || (hosts != [] && r == FetchSlots(owner))
      || (r.HostSlots? && r.owner == owner && r.host in hosts)
  {
    LaunchesTake(slots);
    LaunchesTake(1);
    assert [LaunchScript()] == seq(1, _ => LaunchScript());
    FetchesTake(owner, hosts, r);
    hide Requested, LaunchScript, FetchScripts, RequestedByAll;
    QueryTakesParts(slots, owner, hosts);
  }

  lemma QueryTakesParts(slots: nat, owner: nat, hosts: seq<string>)
    ensures Requested(QueryScript(slots, owner, hosts))
         == {QuerySlots, CpuSlots, ChromePool(owner)} + RequestedByAll(seq(slots, _ => LaunchScript()))
            + RequestedByAll([LaunchScript()]) + RequestedByAll(FetchScripts(owner, hosts))
  {
    hide LaunchScript, FetchScripts, RequestedByAll;
    assert Requested(Release(QuerySlots, End)) == {};
    assert Requested(Release(ChromePool(owner), Release(QuerySlots, End))) == {};
    var drain := Acquire(ChromePool(owner), 1, Release(ChromePool(owner), Release(QuerySlots, End)));
    assert Requested(drain) == {ChromePool(owner)};
    var fetch := Nest(1, FetchScripts(owner, hosts), drain);
    assert Requested(fetch) == RequestedByAll(FetchScripts(owner, hosts)) + {ChromePool(owner)};
    var launch := Nest(1, [LaunchScript()], fetch);
    assert Requested(launch) == RequestedByAll([LaunchScript()]) + Requested(fetch);
    var parse := Acquire(CpuSlots, 1, Release(CpuSlots, launch));
    assert Requested(parse) == {CpuSlots} + Requested(launch);
  }
}
