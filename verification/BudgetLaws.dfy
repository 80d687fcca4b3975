/**
 * The estimator against what it estimates: it never undercuts or overstates the permit schedule,
 * it is monotone in every knob, and the gate and its report agree with one another.
 */
module BudgetLaws {
  import opened Common
  import opened Arithmetic
  import opened Concurrency
  import opened Budget
  import opened Schedule

  // ----- Saturation commutes with the exact formulas -----

  lemma SatMulExact(a: nat, b: nat)
    ensures Sat(Sat(a) * b) == Sat(a * b)
  {
    if a > U64_MAX && b > 0 {
      SmallerFactor(U64_MAX, 1, b);
      SmallerFactor(a, 1, b);
    }
  }

  lemma SatMulMonotone(a: u64, b: u64, c: u64, d: u64)
    requires a <= c && b <= d
    ensures SatMul(a, b) <= SatMul(c, d)
  {
    MulMonotone(a, c, b);
    SmallerFactor(c, b, d);
  }

  lemma PercentMonotone(a: u64, p: u64, b: u64, q: u64)
    requires a <= b && p <= q
    ensures PercentOf(a, p) <= PercentOf(b, q)
  {
    SatMulMonotone(a, p, b, q);
    CeilDivMonotone(SatMul(a, p), SatMul(b, q), 100, 100);
  }

  /** A percentage is the exact product divided by 100 and rounded up, unless the product saturates. */
  lemma PercentIsCeiling(a: u64, percent: u64, t: nat)
    requires a * percent <= U64_MAX
    ensures PercentOf(a, percent) <= t <==> a * percent <= t * 100
  {
    CeilDivIsLeast(a * percent, 100, t);
  }

  /** One vertical of one sub-query, without saturation. */
  function ExactUnit(i: Input): nat {
    i.serpSeconds + if i.fetchContent then (if i.fetchCap == 0 then 1 else i.fetchCap) * i.fetchSeconds else 0
  }

  /** How many verticals run one after the other. */
  function SerialVerticals(i: Input): nat {
    if i.dual && !RuntimeDual(i) then 2 else 1
  }

  function ExactUnitWall(i: Input): nat {
    SerialVerticals(i) * ExactUnit(i)
  }

  function FollowUps(i: Input): nat {
    i.depth * PerRound(i)
  }

  function ExactWall(i: Input): nat {
    (Waves(i) + FollowUps(i)) * ExactUnitWall(i)
  }

  function ExactWork(i: Input): nat {
    (SubQueries(i) + FollowUps(i)) * (SlotsPerQuery(i) * ExactUnitWall(i))
  }

  lemma VerticalsSplit(i: Input)
    ensures Verticals(i) == SlotsPerQuery(i) * SerialVerticals(i)
  {
  }

  lemma VerticalUnits(serp: u64, urls: u64, fetch: u64, v: nat)
    requires 1 <= v <= 2
    ensures SatAdd(SatMul(serp, v), SatMul(SatMul(urls, fetch), v)) == Sat(v * (serp + urls * fetch))
    ensures SatAdd(SatMul(serp, v), 0) == Sat(v * serp)
  {
    SatMulExact(urls * fetch, v);
    assert v * (serp + urls * fetch) == serp * v + (urls * fetch) * v;
  }

  /** Both unit costs saturate exactly where the exact cost does. */
  lemma UnitsAreExact(i: Input)
    ensures UnitWall(i) == Sat(SerialVerticals(i) * ExactUnit(i))
    ensures UnitWork(i) == Sat(Verticals(i) * ExactUnit(i))
  {
    VerticalUnits(i.serpSeconds, FetchedUrls(i), i.fetchSeconds, SerialVerticals(i));
    VerticalUnits(i.serpSeconds, FetchedUrls(i), i.fetchSeconds, Verticals(i));
  }

  lemma SatMulBoth(a: nat, b: nat)
    ensures Sat(Sat(a) * Sat(b)) == Sat(a * b)
  {
    SatMulExact(a, Sat(b));
    SatMulExact(b, a);
    assert a * Sat(b) == Sat(b) * a && b * a == a * b;
  }

  lemma SatAddExact(a: nat, b: nat)
    ensures SatAdd(Sat(a), Sat(b)) == Sat(a + b)
  {
  }

  /** `count` units plus the depth rounds, in saturating steps, equal the exact sum saturated once. */
  lemma TotalIsExact(count: u64, rounds: nat, unit: nat)
    ensures SatAdd(SatMul(count, Sat(unit)), SatMul(Sat(rounds), Sat(unit))) == Sat((count + rounds) * unit)
  {
    SatMulBoth(count, unit);
    SatMulBoth(rounds, unit);
    SatAddExact(count * unit, rounds * unit);
    Distribute(count, rounds, unit);
  }

  lemma RoundsAreFollowUps(i: Input)
    ensures SatMul(i.depth, PerRound(i)) == Sat(FollowUps(i))
  {
  }

  lemma WorkIsExact(i: Input)
    ensures WorkEstimate(i) == Sat(ExactWork(i))
  {
    hide ExactUnit, UnitWork, SlotsPerQuery, SerialVerticals, Verticals, PerRound, SubQueries, RuntimeDual, FollowUps;
    RoundsAreFollowUps(i);
    UnitsAreExact(i);
    VerticalsSplit(i);
    Reassociate(SlotsPerQuery(i), SerialVerticals(i), ExactUnit(i));
    TotalIsExact(SubQueries(i), FollowUps(i), SlotsPerQuery(i) * ExactUnitWall(i));
  }

  lemma Reassociate(a: nat, b: nat, c: nat)
    ensures (a * b) * c == a * (b * c)
  {
  }

  /** Below the lower threshold nothing is scaled; from the upper one on, which lies above the lower, the high factor applies. */
  lemma ContentionBands(n: u64, c: Contention)
    ensures n < c.low ==> ContentionFactor(n, c) == 100
    ensures c.low <= n && (n < c.high || (n == c.low && n < U64_MAX)) ==>
              ContentionFactor(n, c) == if c.midPercent < 100 then 100 else c.midPercent
    ensures c.low < n && c.high <= n ==>
              && ContentionFactor(n, c) >= 100 && ContentionFactor(n, c) >= c.midPercent && ContentionFactor(n, c) >= c.highPercent
              && ContentionFactor(n, c) in {100, c.midPercent, c.highPercent}
  {
  }

  predicate Uncontended(i: Input) {
    Factor(i) == 100
  }

  /** The one multiplication of an uncontended estimate that can saturate on its own. */
  predicate UnitFitsPercent(i: Input) {
    ExactUnitWall(i) * 100 <= U64_MAX
  }

  lemma HundredPercent(a: u64)
    ensures PercentOf(a, 100) <= a
    ensures a * 100 <= U64_MAX ==> PercentOf(a, 100) == a
  {
    CeilDivIsLeast(SatMul(a, 100), 100, a);
    if a > 0 {
      CeilDivIsLeast(a * 100, 100, a - 1);
    }
  }

  lemma WallAtMostExact(i: Input)
    requires Uncontended(i)
    ensures WallEstimate(i) <= Sat(ExactWall(i))
    ensures UnitFitsPercent(i) ==> WallEstimate(i) == Sat(ExactWall(i))
  {
    hide ExactUnit, UnitWall, SlotsPerQuery, SerialVerticals, PerRound, SubQueries, RuntimeDual, Waves, Factor, PercentOf, FollowUps;
    RoundsAreFollowUps(i);
    UnitsAreExact(i);
    var exact := ExactUnitWall(i);
    var unit := ScaleSeconds(UnitWall(i), 100);
    HundredPercent(UnitWall(i));
    SatMulMonotone(Waves(i), unit, Waves(i), Sat(exact));
    SatMulMonotone(Sat(FollowUps(i)), unit, Sat(FollowUps(i)), Sat(exact));
    TotalIsExact(Waves(i), FollowUps(i), exact);
  }

  // ----- Wall and work -----

  lemma WavesBounds(i: Input)
    ensures Waves(i) <= SubQueries(i)
    ensures SlotsPerQuery(i) * SubQueries(i) <= Waves(i) * ChromeProcessBudget(i.parallelism)
    ensures 1 <= SlotsPerQuery(i) <= ChromeProcessBudget(i.parallelism)
  {
    hide Quotient;
    var s, b, n := SlotsPerQuery(i), ChromeProcessBudget(i.parallelism), SubQueries(i);
    SlotsFitExactly(i.parallelism, Auto, i.shared, true, i.dual);
    CapacityIsPositive(s, b);
    QuotientBounds(b, s);
    CeilDivCovers(n, Capacity(i));
    SmallerFactor(n, 1, Capacity(i));
    CeilDivIsLeast(n, Capacity(i), n);
    assert Waves(i) == CeilDiv(n, Capacity(i)) by { CeilDivIsLeast(n, Capacity(i), 0); }
    SmallerFactor(Waves(i), Capacity(i) * s, b);
    MulMonotone(n, Waves(i) * Capacity(i), s);
    Reassociate(Waves(i), Capacity(i), s);
  }

  /** The two-sided bound in pure arithmetic: `n` runs of `s` slots in `w` waves under a budget of `b`. */
  lemma WaveArithmetic(n: nat, w: nat, d: nat, s: nat, b: nat, u: nat)
    requires 1 <= s <= b && w <= n && s * n <= w * b
    ensures (w + d) * u <= (n + d) * (s * u) <= (w + d) * u * b
  {
    MulMonotone(w + d, n + d, u);
    SmallerFactor((n + d) * u, 1, s);
    SmallerFactor(d, s, b);
    Distribute(n, d, s);
    Distribute(w, d, b);
    MulMonotone((n + d) * s, (w + d) * b, u);
    Reassociate(n + d, s, u);
    Reassociate(w + d, b, u);
    Swap(n + d, s, u);
    Swap(w + d, b, u);
  }

  lemma Swap(a: nat, b: nat, c: nat)
    ensures a * b * c == a * c * b
  {
  }

  lemma ExactWallAndWork(i: Input)
    ensures ExactWall(i) <= ExactWork(i) <= ExactWall(i) * ChromeProcessBudget(i.parallelism)
  {
    WavesBounds(i);
    hide ExactUnitWall, SlotsPerQuery, FollowUps, SubQueries, Waves, ChromeProcessBudget;
    WaveArithmetic(SubQueries(i), Waves(i), FollowUps(i), SlotsPerQuery(i),
                   ChromeProcessBudget(i.parallelism), ExactUnitWall(i));
  }

  /** A unit too large for its percentage is cut down to the ceiling of the percentage. */
  lemma CutUnit(unit: nat)
    requires unit * 100 > U64_MAX
    ensures PercentOf(Sat(unit), 100) == PERCENT_CEILING
  {
    assert Sat(unit) * 100 >= U64_MAX;
  }

  /** The wall estimate of a request whose unit is cut. */
  lemma CutWall(i: Input)
    requires Uncontended(i) && !UnitFitsPercent(i)
    ensures WallEstimate(i) == Sat((Waves(i) + FollowUps(i)) * PERCENT_CEILING)
  {
    hide ExactUnit, UnitWall, SerialVerticals, PerRound, Waves, Factor, PercentOf, FollowUps;
    RoundsAreFollowUps(i);
    UnitsAreExact(i);
    CutUnit(ExactUnitWall(i));
    TotalIsExact(Waves(i), FollowUps(i), PERCENT_CEILING);
  }

  /** What the budget can do in the wall estimate of a cut unit. */
  function CutCapacity(i: Input): nat {
    (Waves(i) + FollowUps(i)) * PERCENT_CEILING * ChromeProcessBudget(i.parallelism)
  }

  /**
   * Uncontended, the wall estimate never exceeds the work. The work does not exceed what the process
   * budget can do within the wall estimate, exactly when a unit times 100 does not saturate or the
   * work fits the capacity of the unit's ceiling.
   */
  lemma WallBoundsWork(i: Input)
    requires Uncontended(i)
    ensures WallEstimate(i) <= WorkEstimate(i)
    ensures WorkEstimate(i) <= WallEstimate(i) * ChromeProcessBudget(i.parallelism)
       <==> UnitFitsPercent(i) || Sat(ExactWork(i)) <= CutCapacity(i)
  {
    WallAtMostExact(i);
    WorkIsExact(i);
    ExactWallAndWork(i);
    if !UnitFitsPercent(i) {
      CutWall(i);
    }
    assert ChromeProcessBudget(i.parallelism) >= 1;
    hide WallEstimate, WorkEstimate, ExactWork, Waves, FollowUps, ChromeProcessBudget, UnitFitsPercent, ExactUnitWall, Factor;
    SaturatedShare(ExactWork(i), ExactWall(i), ChromeProcessBudget(i.parallelism));
    SaturatedShare(ExactWork(i), (Waves(i) + FollowUps(i)) * PERCENT_CEILING, ChromeProcessBudget(i.parallelism));
  }

  /** Saturating the share of each process makes no difference to whether all shares cover the total. */
  lemma SaturatedShare(total: nat, share: nat, b: nat)
    requires b >= 1
    ensures Sat(total) <= Sat(share) * b <==> Sat(total) <= share * b
  {
    SmallerFactor(U64_MAX, 1, b);
    if share > U64_MAX {
      MulMonotone(U64_MAX, share, b);
    }
  }

  /** `ceil(u64::MAX / 100)`: the largest value a rounded-up percentage can take. */
  const PERCENT_CEILING: nat := CeilDiv(U64_MAX, 100)

  lemma HugeUnitsEscapeTheBound()
    ensures var i := FromCli(1, false, 1, false, 0).(serpSeconds := U64_MAX);
      Uncontended(i) && WorkEstimate(i) > WallEstimate(i) * ChromeProcessBudget(i.parallelism)
  {
    var i := FromCli(1, false, 1, false, 0).(serpSeconds := U64_MAX);
    var unit := ScaleSeconds(U64_MAX, 100);
    CeilDivIsLeast(U64_MAX, 100, U64_MAX / 100 + 1);
    assert Waves(i) == 1 by {
      CeilDivIsLeast(1, Capacity(i), 1);
    }
    assert WallEstimate(i) == unit;
  }

  // ----- The wave formula against the schedules it predicts -----

  function ContendedUnit(i: Input): u64 {
    ScaleSeconds(UnitWall(i), Factor(i))
  }

  /**
   * The estimate's waves are exactly how long greedy admission keeps the sub-queries running under
   * the permit budget, followed by the follow-ups of every depth round one after the other; no
   * schedule of the sub-queries within the budget is faster.
   */
  lemma EstimateIsTheSchedule(i: Input, start: seq<nat>)
    requires ContendedUnit(i) > 0 && |start| == SubQueries(i)
    requires Feasible(start, ContendedUnit(i), SlotsPerQuery(i), ChromeProcessBudget(i.parallelism))
    ensures WavesWall(i) <= Makespan(start, ContendedUnit(i)) + FollowUps(i) * ContendedUnit(i)
    ensures Greedy(start, ContendedUnit(i), SlotsPerQuery(i), ChromeProcessBudget(i.parallelism))
        && (Waves(i) + FollowUps(i)) * ContendedUnit(i) <= U64_MAX
        ==> WavesWall(i) == Makespan(start, ContendedUnit(i)) + FollowUps(i) * ContendedUnit(i)
    ensures WavesWall(i) <= WallEstimate(i)
    ensures Uncontended(i) ==> WavesWall(i) == WallEstimate(i)
  {
    var s, b, unit := SlotsPerQuery(i), ChromeProcessBudget(i.parallelism), ContendedUnit(i);
    WavesBounds(i);
    CapacityIsPositive(s, b);
    CeilDivIsLeast(SubQueries(i), Capacity(i), 0);
    assert Waves(i) == CeilDiv(|start|, Quotient(b, s));
    TotalIsExact(Waves(i), FollowUps(i), unit);
    assert WavesWall(i) == Sat((Waves(i) + FollowUps(i)) * unit);
    hide WavesWall, Waves, SlotsPerQuery, ChromeProcessBudget, ContendedUnit, FollowUps;
    Distribute(Waves(i), FollowUps(i), unit);
    NoScheduleIsFaster(start, unit, s, b);
    if Greedy(start, unit, s, b) {
      GreedyTakesExactlyTheWaves(start, unit, s, b);
    }
  }

  // ----- Monotonicity -----

  /** `b` asks for at least as much as `a` in every respect and has at most its parallelism. */
  predicate AsksNoMore(a: Input, b: Input) {
    && a.maxSubQueries <= b.maxSubQueries
    && (a.fetchContent ==> b.fetchContent)
    && a.fetchCap <= b.fetchCap
    && (a.dual ==> b.dual)
    && a.depth <= b.depth
    && a.serpSeconds <= b.serpSeconds
    && a.fetchSeconds <= b.fetchSeconds
    && a.marginPercent <= b.marginPercent
    && a.parallelism >= b.parallelism
    && a.shared == b.shared
    && Factor(a) <= Factor(b)
  }

  lemma ExactUnitMonotone(a: Input, b: Input)
    requires AsksNoMore(a, b)
    ensures ExactUnit(a) <= ExactUnit(b)
  {
    MulMonotone(FetchedUrls(a), FetchedUrls(b), a.fetchSeconds);
    SmallerFactor(FetchedUrls(b), a.fetchSeconds, b.fetchSeconds);
  }

  lemma SerialVerticalsMonotone(a: Input, b: Input)
    requires AsksNoMore(a, b)
    ensures SerialVerticals(a) <= SerialVerticals(b) && Verticals(a) <= Verticals(b)
  {
  }

  lemma UnitsMonotone(a: Input, b: Input)
    requires AsksNoMore(a, b)
    ensures UnitWall(a) <= UnitWall(b) && UnitWork(a) <= UnitWork(b)
  {
    UnitsAreExact(a);
    UnitsAreExact(b);
    ExactUnitMonotone(a, b);
    SerialVerticalsMonotone(a, b);
    hide UnitWall, UnitWork, ExactUnit, SerialVerticals, Verticals;
    MulMonotone(SerialVerticals(a), SerialVerticals(b), ExactUnit(a));
    SmallerFactor(SerialVerticals(b), ExactUnit(a), ExactUnit(b));
    MulMonotone(Verticals(a), Verticals(b), ExactUnit(a));
    SmallerFactor(Verticals(b), ExactUnit(a), ExactUnit(b));
  }

  /** More parallelism never shrinks the capacity, even where it doubles the slots per query. */
  lemma CapacityMonotone(a: Input, b: Input)
    requires AsksNoMore(a, b)
    ensures Capacity(a) >= Capacity(b)
  {
    hide Factor, Quotient;
    var p, q := ChromeProcessBudget(a.parallelism), ChromeProcessBudget(b.parallelism);
    assert q <= p;
    var s, t := SlotsPerQuery(a), SlotsPerQuery(b);
    if s <= t {
      QuotientMonotone(q, p, s);
      DivisorMonotone(q, s, t);
    } else {
      assert q == 1;
      SlotsToCapacity(2, 1, 1);
    }
  }

  lemma WavesMonotone(a: Input, b: Input)
    requires AsksNoMore(a, b)
    ensures Waves(a) <= Waves(b)
  {
    CapacityMonotone(a, b);
    CeilDivMonotone(SubQueries(a), SubQueries(b), Capacity(a), Capacity(b));
  }

  lemma TotalMonotone(count: u64, rounds: u64, unit: u64, count': u64, rounds': u64, unit': u64)
    requires count <= count' && rounds <= rounds' && unit <= unit'
    ensures SatAdd(SatMul(count, unit), SatMul(rounds, unit)) <= SatAdd(SatMul(count', unit'), SatMul(rounds', unit'))
  {
    SatMulMonotone(count, unit, count', unit');
    SatMulMonotone(rounds, unit, rounds', unit');
  }

  lemma RoundsMonotone(a: Input, b: Input)
    requires AsksNoMore(a, b)
    ensures SatMul(a.depth, PerRound(a)) <= SatMul(b.depth, PerRound(b))
    ensures SubQueries(a) <= SubQueries(b)
  {
    SatMulMonotone(a.depth, PerRound(a), b.depth, PerRound(b));
  }

  lemma ScaleMonotone(s: u64, p: u64, t: u64, q: u64)
    requires s <= t && p <= q
    ensures ScaleSeconds(s, p) <= ScaleSeconds(t, q)
  {
    PercentMonotone(s, Max(p, 100), t, Max(q, 100));
  }

  lemma EstimatesMonotone(a: Input, b: Input)
    requires AsksNoMore(a, b)
    ensures WorkEstimate(a) <= WorkEstimate(b)
    ensures WallEstimate(a) <= WallEstimate(b)
  {
    UnitsMonotone(a, b);
    RoundsMonotone(a, b);
    WavesMonotone(a, b);
    hide UnitWall, UnitWork, SatMul, SatAdd, PerRound, SubQueries, Waves, Factor, ScaleSeconds, PercentOf;
    var u, v := ContendedUnit(a), ContendedUnit(b);
    ScaleMonotone(UnitWall(a), Factor(a), UnitWall(b), Factor(b));
    TotalMonotone(SubQueries(a), SatMul(a.depth, PerRound(a)), UnitWork(a),
                  SubQueries(b), SatMul(b.depth, PerRound(b)), UnitWork(b));
    TotalMonotone(Waves(a), SatMul(a.depth, PerRound(a)), u, Waves(b), SatMul(b.depth, PerRound(b)), v);
    ScaleMonotone(WorkEstimate(a), Factor(a), WorkEstimate(b), Factor(b));
  }

  /** The gated estimate never falls when the workload grows or the parallelism shrinks, saturation included. */
  lemma GatedMonotone(a: Input, b: Input)
    requires AsksNoMore(a, b)
    ensures WallEstimate(a) <= WallEstimate(b)
    ensures Gated(a) <= Gated(b)
  {
    EstimatesMonotone(a, b);
    hide WallEstimate, PercentOf;
    PercentMonotone(WallEstimate(a), SatAdd(100, Min(a.marginPercent, 100)),
                    WallEstimate(b), SatAdd(100, Min(b.marginPercent, 100)));
  }

  lemma FactorMonotone(n: u64, m: u64, c: Contention)
    requires n <= m
    ensures 100 <= ContentionFactor(n, c) <= ContentionFactor(m, c)
  {
  }

  /** More Chromes on the host, everything else equal, never lower the gate. */
  lemma BusierHostNeverCheaper(i: Input, chromeN: u64)
    requires i.chromeN <= chromeN
    ensures Gated(i) <= Gated(i.(chromeN := chromeN))
  {
    FactorMonotone(i.chromeN, chromeN, i.contention);
    GatedMonotone(i, i.(chromeN := chromeN));
  }

  /** For every workload whose own unit costs are not below the thin ones, the profiles are ordered. */
  lemma ProfilesAreOrdered(i: Input)
    requires i.serpSeconds >= 5 && i.fetchSeconds >= 3 && i.marginPercent >= 10
    ensures Gated(WithProfile(i, Some(Thin))) <= Gated(WithProfile(i, Some(Lab)))
                                             <= Gated(WithProfile(i, Some(DesktopContended)))
  {
    hide Gated;
    GatedMonotone(WithProfile(i, Some(Thin)), WithProfile(i, Some(Lab)));
    GatedMonotone(WithProfile(i, Some(Lab)), WithProfile(i, Some(DesktopContended)));
  }
}
