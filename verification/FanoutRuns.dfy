/** The bounds of the multi-query fan-out are reached: a run that starts as many browsers as are allowed. */
module FanoutRuns {
  import opened Common
  import opened Arithmetic
  import opened Concurrency
  import opened Sums
  import opened QueryFanout

  /** A run that leads from one state to another. */
  ghost predicate Leads(c: Settings, run: seq<State>, from: State, to: State) {
    run != [] && run[0] == from && run[|run| - 1] == to && Reachable(c, run)
  }

  lemma LeadsFurther(c: Settings, run: seq<State>, from: State, via: State, to: State)
    requires Leads(c, run, from, via) && Next(c, via, to)
    ensures Leads(c, run + [to], from, to)
  {
    var more := run + [to];
    forall k | 0 <= k < |more| - 1 ensures Next(c, more[k], more[k + 1]) {
      if k < |run| - 1 {
        assert Next(c, run[k], run[k + 1]);
      }
    }
  }

  /** The state with one phase replaced and the permits accounted for. */
  function Moved(c: Settings, s: State, i: nat, to: Phase): State
    requires i < |s.phases| && s.available + Holder(s.phases[i]) * PaidSlots(c) >= Holder(to) * PaidSlots(c)
  {
    State(s.phases[i := to], s.available + Holder(s.phases[i]) * PaidSlots(c) - Holder(to) * PaidSlots(c))
  }

  lemma MoveOnce(c: Settings, run: seq<State>, from: State, s: State, i: nat, to: Phase) returns (more: seq<State>)
    requires Leads(c, run, from, s) && i < |s.phases| && Moves(c, s.phases[i], to, s.available)
    requires s.available + Holder(s.phases[i]) * PaidSlots(c) >= Holder(to) * PaidSlots(c)
    ensures Leads(c, more, from, Moved(c, s, i, to)) && more == run + [Moved(c, s, i, to)]
  {
    more := run + [Moved(c, s, i, to)];
    assert Next(c, s, Moved(c, s, i, to)) by { hide Moves, PaidSlots, Holder; }
    LeadsFurther(c, run, from, s, Moved(c, s, i, to));
  }

  /** The session of a search in full swing. */
  function FullSession(c: Settings): Session {
    if RunsTwoBrowsers(c) then TwoBrowsers(true, true) else OneBrowser(true)
  }

  function ColdSession(c: Settings): Session {
    if RunsTwoBrowsers(c) then TwoBrowsers(false, false) else OneBrowser(false)
  }

  lemma PhasesReplaced(phases: seq<Phase>, i: nat, a: Phase, b: Phase)
    requires i < |phases|
    ensures phases[i := a][i := b] == phases[i := b]
  {
  }

  /** A delayed task can be admitted, if its permits are free, and start all its browsers. */
  lemma StartOne(c: Settings, run: seq<State>, from: State, s: State, i: nat) returns (more: seq<State>)
    requires Leads(c, run, from, s) && i < |s.phases| && s.phases[i].Delayed? && PaidSlots(c) <= s.available
    ensures Leads(c, more, from, State(s.phases[i := Searching(FullSession(c))], s.available - PaidSlots(c)))
  {
    hide PaidSlots, RunsTwoBrowsers, Leads;
    more := MoveOnce(c, run, from, s, i, Waiting);
    var t := Moved(c, s, i, Waiting);
    assert t.phases[i] == Waiting && t.available == s.available;
    more := MoveOnce(c, more, from, t, i, Admitted);
    t := Moved(c, t, i, Admitted);
    assert t.phases[i] == Admitted && t.available == s.available - PaidSlots(c);
    more := MoveOnce(c, more, from, t, i, Searching(ColdSession(c)));
    t := Moved(c, t, i, Searching(ColdSession(c)));
    if RunsTwoBrowsers(c) {
      more := MoveOnce(c, more, from, t, i, Searching(TwoBrowsers(true, false)));
      t := Moved(c, t, i, Searching(TwoBrowsers(true, false)));
    }
    more := MoveOnce(c, more, from, t, i, Searching(FullSession(c)));
    t := Moved(c, t, i, Searching(FullSession(c)));
    assert t.phases == s.phases[i := Searching(FullSession(c))];
  }

  /** The first `m` tasks search with all their browsers, the others have not begun. */
  function Busy(c: Settings, queries: nat, m: nat): seq<Phase>
    requires m <= queries
  {
    seq(m, _ => Searching(FullSession(c))) + seq(queries - m, _ => Delayed)
  }

  lemma {:induction false} StartMany(c: Settings, queries: nat, m: nat) returns (run: seq<State>)
    requires m <= queries && m * PaidSlots(c) <= EffectiveConcurrency(c.parallelism)
    ensures Leads(c, run, Start(c, queries), State(Busy(c, queries, m), EffectiveConcurrency(c.parallelism) - m * PaidSlots(c)))
  {
    hide PaidSlots, EffectiveConcurrency, FullSession;
    if m == 0 {
      run := [Start(c, queries)];
      assert Busy(c, queries, 0) == Start(c, queries).phases;
      assert 0 * PaidSlots(c) == 0;
    } else {
      OneMore(m - 1, PaidSlots(c));
      run := StartMany(c, queries, m - 1);
      var s := State(Busy(c, queries, m - 1), EffectiveConcurrency(c.parallelism) - (m - 1) * PaidSlots(c));
      run := StartOne(c, run, Start(c, queries), s, m - 1);
      assert s.phases[m - 1 := Searching(FullSession(c))] == Busy(c, queries, m);
    }
  }

  lemma {:induction false} SumOfRepeated(f: Phase -> nat, m: nat, x: Phase)
    ensures Sum(f, seq(m, _ => x)) == m * f(x)
  {
    if m > 0 {
      assert seq(m, _ => x)[1..] == seq(m - 1, _ => x);
      SumOfRepeated(f, m - 1, x);
      OneMore(m - 1, f(x));
    }
  }

  lemma BusyCounts(c: Settings, queries: nat, m: nat)
    requires m <= queries
    ensures Sum(Holder, Busy(c, queries, m)) == m && Sum(Chromes, Busy(c, queries, m)) == m * PaidSlots(c)
  {
    DecisionsAgree(c);
    var busy, idle := seq(m, _ => Searching(FullSession(c))), seq(queries - m, _ => Delayed);
    SumConcat(Holder, busy, idle);
    SumConcat(Chromes, busy, idle);
    SumOfRepeated(Holder, m, Searching(FullSession(c)));
    SumOfRepeated(Chromes, m, Searching(FullSession(c)));
    SumIsZero(Holder, idle);
    SumIsZero(Chromes, idle);
    hide PaidSlots;
    assert Chromes(Searching(FullSession(c))) == PaidSlots(c);
  }

  /**
   * With enough queries some run has as many in flight as whole slots fit the process budget, and a live
   * browser for every slot: the bounds that hold in every run are attained.
   */
  lemma BoundsAreAttained(c: Settings, queries: nat) returns (run: seq<State>)
    requires queries >= Quotient(ChromeProcessBudget(c.parallelism), PaidSlots(c))
    ensures var m := Quotient(ChromeProcessBudget(c.parallelism), PaidSlots(c));
            run != [] && run[0] == Start(c, queries) && Reachable(c, run)
            && InFlight(run[|run| - 1]) == m && LiveChromes(run[|run| - 1]) == m * PaidSlots(c)
  {
    var m := Quotient(ChromeProcessBudget(c.parallelism), PaidSlots(c));
    QuotientBounds(ChromeProcessBudget(c.parallelism), PaidSlots(c));
    hide PaidSlots, Quotient;
    run := StartMany(c, queries, m);
    BusyCounts(c, queries, m);
  }

  /** A search that has shut its browsers down can fetch pages with a whole pool and then end. */
  lemma FetchAndEnd(c: Settings, run: seq<State>, from: State, s: State, i: nat) returns (more: seq<State>, mid: State)
    requires Leads(c, run, from, s) && i < |s.phases| && s.phases[i] == Searching(ColdSession(c)) && c.urls > 0
    ensures mid == State(s.phases[i := Fetching(1)], s.available)
    ensures Leads(c, more, from, State(s.phases[i := Ended], s.available + PaidSlots(c)))
    ensures mid in more
  {
    hide PaidSlots, Leads;
    more := MoveOnce(c, run, from, s, i, Fetching(0));
    var t := Moved(c, s, i, Fetching(0));
    more := MoveOnce(c, more, from, t, i, Fetching(1));
    mid := Moved(c, t, i, Fetching(1));
    assert mid.phases == s.phases[i := Fetching(1)];
    var last := MoveOnce(c, more, from, mid, i, Fetching(0));
    t := Moved(c, mid, i, Fetching(0));
    last := MoveOnce(c, last, from, t, i, Ended);
    t := Moved(c, t, i, Ended);
    assert t.phases == s.phases[i := Ended];
    more := last;
  }
}
