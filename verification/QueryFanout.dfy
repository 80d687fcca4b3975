/** The multi-query fan-out: the permit account of its Chrome processes, and the order of its results. */
module QueryFanout {
  import opened Common
  import opened Arithmetic
  import opened Concurrency
  import opened Sums

  /** The command-line settings all tasks of one fan-out share, and how many pages each enriches. */
  datatype Settings = Settings(parallelism: nat, shared: bool, web: bool, news: bool, urls: nat)

  /** The fan-out's reckoning: the permits every task pays, from the effective parallelism. */
  function PaidSlots(c: Settings): nat {
    Slots(EffectiveConcurrency(c.parallelism), Auto, c.shared, c.web, c.news)
  }

  /** The search pipeline's own decision, from the parallelism as given. */
  predicate RunsTwoBrowsers(c: Settings) {
    PreferDualVerticalChrome(c.parallelism, Auto, c.shared) && c.web && c.news
  }

  /** The browsers of one search: one session for everything, or one part per vertical. */
  datatype Session =
    | OneBrowser(up: bool)
    | TwoBrowsers(webUp: bool, newsUp: bool)

  /** Where one query task is. */
  datatype Phase =
    | Delayed
    | Waiting
    | Admitted
    | Searching(session: Session)
    | Fetching(pool: nat)
    | Ended

  datatype State = State(phases: seq<Phase>, available: nat)

  function Start(c: Settings, queries: nat): State {
    State(seq(queries, _ => Delayed), EffectiveConcurrency(c.parallelism))
  }

  predicate HoldsPermits(x: Phase) {
    x.Admitted? || x.Searching? || x.Fetching?
  }

  function Holder(x: Phase): nat {
    if HoldsPermits(x) then 1 else 0
  }

  function Up(b: bool): nat {
    if b then 1 else 0
  }

  function Chromes(x: Phase): nat {
    match x
    case Searching(OneBrowser(up)) => Up(up)
    case Searching(TwoBrowsers(webUp, newsUp)) => Up(webUp) + Up(newsUp)
    case Fetching(pool) => pool
    case _ => 0
  }

  function InFlight(s: State): nat {
    Sum(Holder, s.phases)
  }

  function LiveChromes(s: State): nat {
    Sum(Chromes, s.phases)
  }

  /** A part of a search launches its browser, or shuts it down; each part has one at a time. */
  predicate SessionMoves(from: Session, to: Session) {
    match from
    case OneBrowser(up) => to == OneBrowser(!up)
    case TwoBrowsers(webUp, newsUp) => to == TwoBrowsers(!webUp, newsUp) || to == TwoBrowsers(webUp, !newsUp)
  }

  /** What one task may do next, given the free permits. */
  predicate Moves(c: Settings, from: Phase, to: Phase, available: nat) {
    match from
    case Delayed => to.Waiting? || to.Ended?
    case Waiting => (to.Admitted? && PaidSlots(c) <= available) || to.Ended?
    case Admitted =>
      to == Searching(if RunsTwoBrowsers(c) then TwoBrowsers(false, false) else OneBrowser(false)) || to.Ended?
    case Searching(session) =>
      (to.Searching? && SessionMoves(session, to.session)) || (Chromes(from) == 0 && to == Fetching(0)) || to.Ended?
    case Fetching(pool) =>
      (pool < ChromePoolSize(c.parallelism, c.urls, true) && to == Fetching(pool + 1))
      || (pool > 0 && to == Fetching(pool - 1)) || to.Ended?
    case Ended => false
  }

  /** Admission takes the task's slots; leaving, by return, error, panic or abort, gives them back. */
  ghost predicate Next(c: Settings, s: State, s': State) {
    exists i: nat, to ::
      && i < |s.phases|
      && Moves(c, s.phases[i], to, s.available)
      && s'.phases == s.phases[i := to]
      && s'.available == s.available + Holder(s.phases[i]) * PaidSlots(c) - Holder(to) * PaidSlots(c)
  }

  /** Two browsers are only ever run by searches that decided so, and a nested pool stays small. */
  predicate PhaseOk(c: Settings, x: Phase) {
    && (x.Searching? && x.session.TwoBrowsers? ==> RunsTwoBrowsers(c))
    && (x.Fetching? ==> x.pool <= ChromePoolSize(c.parallelism, c.urls, true))
  }

  ghost predicate Inv(c: Settings, s: State) {
    && s.available + InFlight(s) * PaidSlots(c) == EffectiveConcurrency(c.parallelism)
    && forall i :: 0 <= i < |s.phases| ==> PhaseOk(c, s.phases[i])
  }

  /**
   * The pipeline decides again, from other numbers, whether to run two browsers, and comes to the
   * same answer as the fan-out that paid for them.
   */
  lemma DecisionsAgree(c: Settings)
    ensures PaidSlots(c) == if RunsTwoBrowsers(c) then 2 else 1
    ensures PaidSlots(c) <= EffectiveConcurrency(c.parallelism)
  {
  }

  /** So no task ever runs more browsers than it paid permits for. */
  lemma TaskStaysWithinItsPermits(c: Settings, x: Phase)
    requires PhaseOk(c, x)
    ensures Chromes(x) <= Holder(x) * PaidSlots(c)
  {
    DecisionsAgree(c);
  }

  lemma StartInv(c: Settings, queries: nat)
    ensures Inv(c, Start(c, queries))
  {
    SumIsZero(Holder, Start(c, queries).phases);
  }

  /** One phase change, on the permit account. */
  lemma MoveKeepsAccount(c: Settings, s: State, s': State, i: nat, to: Phase)
    requires s.available + InFlight(s) * PaidSlots(c) == EffectiveConcurrency(c.parallelism)
    requires i < |s.phases| && s'.phases == s.phases[i := to]
    requires s'.available == s.available + Holder(s.phases[i]) * PaidSlots(c) - Holder(to) * PaidSlots(c)
    ensures s'.available + InFlight(s') * PaidSlots(c) == EffectiveConcurrency(c.parallelism)
  {
    hide EffectiveConcurrency, Holder, PaidSlots;
    SumUpdate(Holder, s.phases, i, to);
    Distribute(InFlight(s'), Holder(s.phases[i]), PaidSlots(c));
    Distribute(InFlight(s), Holder(to), PaidSlots(c));
  }

  lemma MoveKeepsPhase(c: Settings, from: Phase, to: Phase, available: nat)
    requires Moves(c, from, to, available) && PhaseOk(c, from)
    ensures PhaseOk(c, to)
  {
    hide ChromePoolSize, RunsTwoBrowsers, PaidSlots;
  }

  lemma NextKeepsInv(c: Settings, s: State, s': State)
    requires Inv(c, s) && Next(c, s, s')
    ensures Inv(c, s')
  {
    hide EffectiveConcurrency, Holder, PhaseOk, Moves, InFlight, PaidSlots;
    var i: nat, to :| i < |s.phases| && Moves(c, s.phases[i], to, s.available)
      && s'.phases == s.phases[i := to]
      && s'.available == s.available + Holder(s.phases[i]) * PaidSlots(c) - Holder(to) * PaidSlots(c);
    MoveKeepsAccount(c, s, s', i, to);
    MoveKeepsPhase(c, s.phases[i], to, s.available);
  }

  ghost predicate Reachable(c: Settings, run: seq<State>)
    requires run != []
  {
    forall k :: 0 <= k < |run| - 1 ==> Next(c, run[k], run[k + 1])
  }

  /**
   * In every run: permits held and free add up to the effective concurrency, no more Chrome
   * processes than that are alive, and no more queries are in flight than whole slots fit.
   */
  lemma {:induction false} ChromesStayWithinBudget(c: Settings, queries: nat, run: seq<State>)
    requires run != [] && run[0] == Start(c, queries) && Reachable(c, run)
    ensures var s := run[|run| - 1];
      && Inv(c, s) && PaidSlots(c) >= 1
      && LiveChromes(s) <= InFlight(s) * PaidSlots(c) <= ChromeProcessBudget(c.parallelism)
      && InFlight(s) <= Quotient(ChromeProcessBudget(c.parallelism), PaidSlots(c))
  {
    DecisionsAgree(c);
    hide Moves, Next, Quotient, PaidSlots, RunsTwoBrowsers;
    var s := run[|run| - 1];
    if |run| == 1 {
      StartInv(c, queries);
    } else {
      var before := run[..|run| - 1];
      assert forall k :: 0 <= k < |before| ==> before[k] == run[k];
      ChromesStayWithinBudget(c, queries, before);
      assert Next(c, run[|run| - 2], run[|run| - 1]);
      NextKeepsInv(c, before[|before| - 1], s);
    }
    ChromesWithinPermits(c, s);
    QuotientBounds(ChromeProcessBudget(c.parallelism), PaidSlots(c));
    QuotientsInOrder(InFlight(s), Quotient(ChromeProcessBudget(c.parallelism), PaidSlots(c)),
                     InFlight(s) * PaidSlots(c), ChromeProcessBudget(c.parallelism), PaidSlots(c));
  }

  lemma ChromesWithinPermits(c: Settings, s: State)
    requires Inv(c, s)
    ensures LiveChromes(s) <= InFlight(s) * PaidSlots(c)
  {
    hide PhaseOk, PaidSlots, Chromes, Holder;
    var held := (x: Phase) => Holder(x) * PaidSlots(c);
    forall i | 0 <= i < |s.phases| ensures Chromes(s.phases[i]) <= held(s.phases[i]) {
      TaskStaysWithinItsPermits(c, s.phases[i]);
    }
    SumMonotone(Chromes, held, s.phases);
    SumScaled(PaidSlots(c), held, s.phases);
  }

  lemma {:induction false} SumScaled(d: nat, scaled: Phase -> nat, phases: seq<Phase>)
    requires forall x :: scaled(x) == Holder(x) * d
    ensures Sum(scaled, phases) == Sum(Holder, phases) * d
  {
    if phases != [] {
      SumScaled(d, scaled, phases[1..]);
      Distribute(Holder(phases[0]), Sum(Holder, phases[1..]), d);
    }
  }

  /** Once all tasks have ended, by whatever way, every permit is back. */
  lemma AllPermitsReturn(c: Settings, s: State)
    requires Inv(c, s) && forall i :: 0 <= i < |s.phases| ==> s.phases[i].Ended?
    ensures s.available == EffectiveConcurrency(c.parallelism) && LiveChromes(s) == 0
  {
    SumIsZero(Holder, s.phases);
    SumIsZero(Chromes, s.phases);
  }

  // ----- Collecting the results -----

  datatype Report = Answered(output: string) | Failed(index: nat, message: string)

  /** How a task leaves the join set: with its own result, or lost to a panic or an abort. */
  datatype Joined =
    | Returned(index: nat, answer: Option<string>, error: string)
    | Lost(message: string)

  function Rendered(j: Joined): Report
    requires j.Returned?
  {
    match j.answer case Some(output) => Answered(output) case None => Failed(j.index, j.error)
  }

  /** Every task was spawned with its own index and joins once. */
  predicate OneReturnPerIndex(n: nat, joined: seq<Joined>) {
    && (forall k :: 0 <= k < |joined| && joined[k].Returned? ==> joined[k].index < n)
    && (forall k, l :: 0 <= k < l < |joined| && joined[k].Returned? && joined[l].Returned?
          ==> joined[k].index != joined[l].index)
  }

  /** No task with this index has returned so far. */
  predicate Missing(joined: seq<Joined>, index: nat) {
    forall k :: 0 <= k < |joined| ==> !(joined[k].Returned? && joined[k].index == index)
  }

  lemma MissingBefore(joined: seq<Joined>, last: Joined, index: nat)
    requires Missing(joined + [last], index)
    ensures Missing(joined, index) && !(last.Returned? && last.index == index)
  {
    assert (joined + [last])[|joined|] == last;
    assert forall l :: 0 <= l < |joined| ==> (joined + [last])[l] == joined[l];
  }

  /** The report of a query of which nothing was heard. */
  function NoResult(index: nat): Report {
    Failed(index, "missing result")
  }

  /** The report of some lost task, which does not know its index. */
  ghost predicate FiledAsLost(joined: seq<Joined>, report: Report) {
    exists k :: 0 <= k < |joined| && joined[k].Lost? && report == Failed(0, joined[k].message)
  }

  /**
   * Results come back in the order of the queries, whatever the order of completion. A lost task is
   * reported in the first slot still empty, but a result that arrives later takes its slot back; a
   * query without any report is reported as missing under its own index.
   */
  method CollectInOrder(n: nat, joined: seq<Joined>) returns (searches: seq<Report>)
    requires OneReturnPerIndex(n, joined)
    ensures |searches| == n
    ensures forall k :: 0 <= k < |joined| && joined[k].Returned? ==> searches[joined[k].index] == Rendered(joined[k])
    ensures forall i :: 0 <= i < n && Missing(joined, i) ==> searches[i] == NoResult(i) || FiledAsLost(joined, searches[i])
    ensures forall i, j :: 0 <= i < j < n && Missing(joined, i) && Missing(joined, j) && searches[j] != NoResult(j)
              ==> FiledAsLost(joined, searches[i])
  {
    var ordered: seq<Option<Report>> := seq(n, _ => None);
    for k := 0 to |joined|
      invariant |ordered| == n
      invariant forall l :: 0 <= l < k && joined[l].Returned? ==> ordered[joined[l].index] == Some(Rendered(joined[l]))
      invariant forall i :: 0 <= i < n && Missing(joined[..k], i) ==> ordered[i].None? || FiledAsLost(joined, ordered[i].value)
      invariant forall i, j :: 0 <= i < j < n && Missing(joined[..k], i) && ordered[i].None? ==> ordered[j].None? || !Missing(joined[..k], j)
    {
      ghost var before := ordered;
      match joined[k] {
        case Returned(index, _, _) =>
          ordered := ordered[index := Some(Rendered(joined[k]))];
        case Lost(message) =>
          var slot := 0;
          while slot < n && ordered[slot].Some?
            invariant slot <= n && forall i :: 0 <= i < slot ==> ordered[i].Some?
          {
            slot := slot + 1;
          }
          if slot < n {
            ordered := ordered[slot := Some(Failed(0, message))];
          }
      }
      assert joined[..k + 1] == joined[..k] + [joined[k]];
      forall i | 0 <= i < n && Missing(joined[..k + 1], i)
        ensures Missing(joined[..k], i) && (ordered[i].None? || FiledAsLost(joined, ordered[i].value))
      {
        MissingBefore(joined[..k], joined[k], i);
      }
      forall i, j | 0 <= i < j < n && Missing(joined[..k + 1], i) && ordered[i].None?
        ensures ordered[j].None? || !Missing(joined[..k + 1], j)
      {
        assert before[i].None?;
        if Missing(joined[..k + 1], j) {
          MissingBefore(joined[..k], joined[k], j);
          assert before[j].None? && ordered[j] == before[j];
        }
      }
    }
    assert joined[..|joined|] == joined;
    searches := [];
    for i := 0 to n
      invariant |searches| == i
      invariant forall j :: 0 <= j < i && ordered[j].Some? ==> searches[j] == ordered[j].value
      invariant forall j :: 0 <= j < i && ordered[j].None? ==> searches[j] == NoResult(j)
    {
      searches := searches + [match ordered[i] case Some(report) => report case None => Failed(i, "missing result")];
    }
  }
}
