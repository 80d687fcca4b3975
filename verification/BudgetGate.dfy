/** When two processes beat one, and what the gate and its report promise. */
module BudgetGate {
  import opened Common
  import opened Arithmetic
  import opened Concurrency
  import opened Budget
  import opened BudgetLaws

  // ----- Two Chrome processes per query against one shared session -----

  /**
   * `n` sub-queries and their follow-ups leave enough room to make up for the process that an odd
   * budget leaves idle: the last shared wave is not too full, or follow-ups, which cost a shared
   * session double, outweigh it.
   */
  predicate HasRoom(n: nat, budget: nat, followUps: nat)
    requires n > 0 && budget > 0
  {
    var q := Quotient(n - 1, budget);
    q + ((n - 1) - q * budget) < budget - 1 + followUps * Quotient(budget, 2)
  }

  predicate DualNeverSlower(n: nat, budget: nat, followUps: nat)
    requires n > 0 && budget > 0
  {
    budget == 1 || budget % 2 == 0 || HasRoom(n, budget, followUps)
  }

  lemma CeilDivFromFloor(n: nat, d: nat)
    requires n > 0 && d > 0
    ensures CeilDiv(n, d) == Quotient(n - 1, d) + 1
  {
    hide Quotient;
    QuotientBounds(n - 1, d);
    OneMore(Quotient(n - 1, d), d);
    OneMore(Quotient(n - 1, d) + 1, d);
    QuotientUnique(n + d - 1, d, Quotient(n - 1, d) + 1);
  }

  /** The waves of half the capacity against twice the waves of all of it, in pure arithmetic. */
  lemma HalfCapacityWaves(n: nat, budget: nat, f: nat)
    requires n > 0 && budget >= 2
    ensures Quotient(budget, 2) >= 1
    ensures CeilDiv(n, Quotient(budget, 2)) <= 2 * CeilDiv(n, budget) + f <==> DualNeverSlower(n, budget, f)
  {
    var c, w, q := Quotient(budget, 2), CeilDiv(n, budget), Quotient(n - 1, budget);
    assert c >= 1 && 2 * c == budget - budget % 2;
    CeilDivFromFloor(n, budget);
    CeilDivIsLeast(n, c, 2 * w + f);
    CeilDivCovers(n, budget);
    QuotientBounds(n - 1, budget);
    hide Quotient, CeilDiv;
    OneMore(q, budget);
    Distribute(2 * w, f, c);
    Reassociate(w, 2, c);
    OneLess(w, budget);
  }

  lemma OneLess(w: nat, d: nat)
    requires d >= 1
    ensures w * (d - 1) == w * d - w
  {
  }

  /** The scaled work does not saturate; nor does anything smaller. */
  predicate WorkFitsPercent(i: Input) {
    ExactWork(i) * Factor(i) <= U64_MAX
  }

  lemma FactorAtLeastOne(i: Input)
    ensures Factor(i) >= 100
  {
  }

  lemma PartsFit(n: nat, f: nat, s: nat, u: nat, p: nat)
    requires n >= 1 && s >= 1 && p >= 1 && (n + f) * (s * u) * p <= U64_MAX
    ensures u * p <= U64_MAX && (n + f) * (s * u) <= U64_MAX
  {
    SmallerFactor(u, 1, s);
    MulMonotone(1, n + f, s * u);
    MulMonotone(u, (n + f) * (s * u), p);
    SmallerFactor((n + f) * (s * u), 1, p);
  }

  lemma UnitsFit(i: Input)
    requires WorkFitsPercent(i)
    ensures ExactUnitWall(i) * Factor(i) <= U64_MAX && ExactWork(i) <= U64_MAX && ExactWall(i) <= U64_MAX
  {
    FactorAtLeastOne(i);
    WavesBounds(i);
    assert SubQueries(i) >= 1;
    ExactWallAndWork(i);
    hide ExactUnitWall, SlotsPerQuery, FollowUps, SubQueries, Waves, Factor, ExactWall;
    PartsFit(SubQueries(i), FollowUps(i), SlotsPerQuery(i), ExactUnitWall(i), Factor(i));
  }

  lemma SmallWall(i: Input)
    requires WorkFitsPercent(i) && Uncontended(i)
    ensures WallEstimate(i) == (Waves(i) + FollowUps(i)) * ExactUnitWall(i)
  {
    UnitsFit(i);
    hide ExactUnitWall, Waves, FollowUps, WallEstimate, ExactWork, Factor;
    WallAtMostExact(i);
  }

  lemma WavesAre(i: Input)
    requires i.dual
    ensures Waves(i) == CeilDiv(SubQueries(i), Capacity(i))
    ensures Capacity(i) == if !i.shared && ChromeProcessBudget(i.parallelism) >= 2
                           then Quotient(ChromeProcessBudget(i.parallelism), 2)
                           else ChromeProcessBudget(i.parallelism)
    ensures SerialVerticals(i) == if !i.shared && ChromeProcessBudget(i.parallelism) >= 2 then 1 else 2
  {
    CeilDivIsLeast(SubQueries(i), Capacity(i), 0);
  }

  /** The two arrangements of the same request. */
  lemma SharedTwin(i: Input)
    requires i.dual && !i.shared
    ensures var j := i.(shared := true);
      && ExactUnit(j) == ExactUnit(i) && SubQueries(j) == SubQueries(i) && FollowUps(j) == FollowUps(i)
      && Factor(j) == Factor(i) && Verticals(i) == Verticals(j) == 2
  {
  }

  lemma SameWork(i: Input)
    requires i.dual && !i.shared
    ensures ExactWork(i.(shared := true)) == ExactWork(i) == (SubQueries(i) + FollowUps(i)) * (2 * ExactUnit(i))
  {
    var j := i.(shared := true);
    SharedTwin(i);
    VerticalsSplit(i);
    VerticalsSplit(j);
    hide ExactUnit, SubQueries, FollowUps, Verticals, SlotsPerQuery, SerialVerticals, RuntimeDual;
    Reassociate(SlotsPerQuery(i), SerialVerticals(i), ExactUnit(i));
    Reassociate(SlotsPerQuery(j), SerialVerticals(j), ExactUnit(j));
  }

  /**
   * On an uncontended host two processes per sub-query are no slower than one shared session exactly
   * when the budget is 1 or even or there is room, whatever the depth. An odd budget wastes one
   * process on every wave.
   */
  lemma DualVersusShared(i: Input)
    requires i.dual && !i.shared && Uncontended(i) && WorkFitsPercent(i)
    ensures var j, b := i.(shared := true), ChromeProcessBudget(i.parallelism);
      && ((WallEstimate(i) <= WallEstimate(j)) ==
           (ExactUnit(i) == 0 || DualNeverSlower(SubQueries(i), b, FollowUps(i))))
      && (b >= 2 && ExactUnit(i) > 0 ==>
           (WallEstimate(i) <= WallEstimate(j)) == (Waves(i) <= 2 * Waves(j) + FollowUps(i)))
  {
    var j, n, b, e := i.(shared := true), SubQueries(i), ChromeProcessBudget(i.parallelism), ExactUnit(i);
    var f := FollowUps(i);
    SharedTwin(i);
    SameWork(i);
    SmallWall(i);
    SmallWall(j);
    WavesAre(i);
    WavesAre(j);
    if b >= 2 {
      hide ExactUnit, SubQueries, ChromeProcessBudget, Waves, WallEstimate, Capacity, DualNeverSlower, Quotient,
           CeilDiv, SerialVerticals, FollowUps, ExactWork, Factor;
      HalfCapacityWaves(n, b, f);
      ScaledComparison(Waves(i) + f, Waves(j) + f, e);
    }
  }

  lemma ScaledComparison(a: nat, b: nat, e: nat)
    ensures a * e <= b * (2 * e) <==> e == 0 || a <= 2 * b
  {
    Reassociate(b, 2, e);
    MulMonotone(a, 2 * b, e);
    if a > 2 * b {
      MulMonotone(2 * b + 1, a, e);
      OneMore(2 * b, e);
    }
  }

  /** Three sub-queries under a budget of three: three dual waves against one shared wave of double length. */
  lemma DualCanBeSlower()
    ensures var i := FromCli(3, true, 4, true, 0).(parallelism := 3);
      WallEstimate(i) > WallEstimate(i.(shared := true))
  {
    var i := FromCli(3, true, 4, true, 0).(parallelism := 3);
    SameWork(i);
    assert ExactUnit(i) == 28 && SubQueries(i) == 3 && FollowUps(i) == 0;
    DualVersusShared(i);
    QuotientUnique(2, 3, 0);
  }

  /** Rounding up at most doubles, so the scaled work covers the contended units of every wave. */
  lemma FloorCoversWaves(runs: nat, e: nat, factor: nat)
    requires factor > 100
    ensures runs * CeilDiv(e * factor, 100) <= CeilDiv(runs * (2 * e) * factor, 100)
  {
    hide Quotient, CeilDiv;
    var c, x := CeilDiv(e * factor, 100), e * factor;
    var total := runs * (2 * e) * factor;
    CeilDivCovers(x, 100);
    if e == 0 {
      CeilDivIsLeast(0, 100, 0);
      assert c == 0 && runs * c == 0;
    } else {
      MulMonotone(1, e, factor);
      assert c * 100 <= 2 * x;
      SmallerFactor(runs, c * 100, 2 * x);
      Reassociate(runs, c, 100);
      assert runs * (2 * x) == total by {
        Reassociate(2, e, factor);
        Reassociate(runs, 2 * e, factor);
      }
      CeilDivCovers(total, 100);
      MulMonotone(CeilDiv(total, 100) + 1, runs * c, 100);
      OneMore(CeilDiv(total, 100), 100);
    }
  }

  /** A dual run under a budget of two or more works one vertical at a time per process. */
  lemma DualUnits(i: Input)
    requires i.dual && !i.shared && WorkFitsPercent(i) && ChromeProcessBudget(i.parallelism) >= 2
    ensures UnitWall(i) == ExactUnit(i) && WorkEstimate(i) == ExactWork(i) <= U64_MAX
    ensures ExactUnit(i) * Factor(i) <= U64_MAX
  {
    UnitsFit(i);
    UnitsAreExact(i);
    WorkIsExact(i);
    WavesAre(i);
    FactorAtLeastOne(i);
    hide ExactUnit, UnitWall, WorkEstimate, Factor, ExactWork, Waves;
    SmallerFactor(ExactUnit(i), 1, Factor(i));
  }

  /** Contended, the waves of a dual run are never longer than the floor under both arrangements. */
  lemma ContendedWaves(i: Input)
    requires i.dual && !i.shared && Factor(i) > 100 && WorkFitsPercent(i)
    requires ChromeProcessBudget(i.parallelism) >= 2
    ensures WavesWall(i) <= ScaleSeconds(WorkEstimate(i), Factor(i))
  {
    var e, runs := ExactUnit(i), SubQueries(i) + FollowUps(i);
    DualUnits(i);
    SameWork(i);
    WavesBounds(i);
    hide ExactUnit, SubQueries, FollowUps, Waves, Quotient, CeilDiv, UnitWall, WorkEstimate, Factor, ExactWork,
         ScaleSeconds, WavesWall, SlotsPerQuery, ChromeProcessBudget;
    var c := CeilDiv(e * Factor(i), 100);
    FloorCoversWaves(runs, e, Factor(i));
    ScaledExactly(e, Factor(i));
    ScaledExactly(ExactWork(i), Factor(i));
    WavesAtMost(i, c);
    MulMonotone(Waves(i) + FollowUps(i), runs, c);
  }

  lemma ScaledExactly(seconds: u64, factor: u64)
    requires factor > 100 && seconds * factor <= U64_MAX
    ensures ScaleSeconds(seconds, factor) == CeilDiv(seconds * factor, 100)
  {
    CeilDivIsLeast(0, 100, 0);
  }

  lemma WavesAtMost(i: Input, unit: u64)
    requires ScaleSeconds(UnitWall(i), Factor(i)) == unit
    ensures WavesWall(i) == Sat((Waves(i) + FollowUps(i)) * unit)
  {
    hide UnitWall, Waves, PerRound, Factor, ScaleSeconds, FollowUps;
    RoundsAreFollowUps(i);
    TotalIsExact(Waves(i), FollowUps(i), unit);
  }

  /** On a contended host the floor under the work makes two processes per query never slower. */
  lemma ContentionFavoursDual(i: Input)
    requires i.dual && !i.shared && Factor(i) > 100 && WorkFitsPercent(i)
    ensures WallEstimate(i) <= WallEstimate(i.(shared := true))
  {
    var j := i.(shared := true);
    SharedTwin(i);
    SameWork(i);
    WorkIsExact(i);
    WorkIsExact(j);
    if ChromeProcessBudget(i.parallelism) >= 2 {
      ContendedWaves(i);
      hide WavesWall, ScaleSeconds, WorkEstimate, Factor, ExactWork;
    } else {
      WavesAre(i);
      WavesAre(j);
      UnitsAreExact(i);
      UnitsAreExact(j);
    }
  }

  // ----- The same comparison when something saturates -----

  /** What `seconds` exact seconds count as under a factor: the percentage, rounded up, or its ceiling. */
  function Scaled(seconds: nat, factor: nat): nat {
    CeilDiv(Sat(seconds * factor), 100)
  }

  /** The percentage itself does not saturate. */
  predicate Fits(seconds: nat, factor: nat) {
    seconds * factor <= U64_MAX
  }

  lemma ScaledIs(seconds: nat, factor: u64)
    requires factor >= 100
    ensures ScaleSeconds(Sat(seconds), factor) == Scaled(seconds, factor) <= PERCENT_CEILING
    ensures !Fits(seconds, factor) ==> Scaled(seconds, factor) == PERCENT_CEILING
  {
    SatMulExact(seconds, factor);
    CeilDivIsLeast(0, 100, 0);
    CeilDivMonotone(Sat(seconds * factor), U64_MAX, 100, 100);
  }

  /** The longest of the waves and, on a contended host, the floor. */
  function Walled(factor: nat, waves: nat, floor: nat): nat {
    if factor > 100 then Max(Sat(waves), floor) else Sat(waves)
  }

  lemma WavesWallIs(i: Input)
    ensures WavesWall(i) == Sat(Times(Waves(i) + FollowUps(i), Scaled(ExactUnitWall(i), Factor(i))))
  {
    UnitsAreExact(i);
    assert UnitWall(i) == Sat(ExactUnitWall(i));
    hide Waves, FollowUps, Factor, ExactUnitWall, UnitWall, Scaled, ScaleSeconds, Fits, WavesWall, CeilDiv;
    FactorAtLeastOne(i);
    ScaledIs(ExactUnitWall(i), Factor(i));
    WavesAtMost(i, ScaleSeconds(UnitWall(i), Factor(i)));
  }

  lemma WallIs(i: Input)
    ensures WallEstimate(i)
         == Walled(Factor(i), Times(Waves(i) + FollowUps(i), Scaled(ExactUnitWall(i), Factor(i))), Scaled(ExactWork(i), Factor(i)))
  {
    WorkIsExact(i);
    hide Waves, FollowUps, Factor, ExactUnitWall, WorkEstimate, ExactWork, Scaled, ScaleSeconds, Fits, WavesWall, Times;
    FactorAtLeastOne(i);
    ScaledIs(ExactWork(i), Factor(i));
    WavesWallIs(i);
  }

  /** Half the capacity needs no more waves exactly when one wave of it is enough. */
  lemma OneWaveIsEnough(n: nat, budget: nat)
    requires n > 0 && budget >= 2
    ensures Quotient(budget, 2) >= 1
    ensures CeilDiv(n, Quotient(budget, 2)) <= CeilDiv(n, budget) <==> n <= Quotient(budget, 2)
  {
    var c, w := Quotient(budget, 2), CeilDiv(n, budget);
    assert c >= 1 && 2 * c <= budget;
    CeilDivIsLeast(n, c, w);
    CeilDivIsLeast(n, budget, w);
    CeilDivIsLeast(n, budget, 0);
    hide Quotient, CeilDiv;
    if n <= c {
      SmallerFactor(w, 1, c);
      MulMonotone(1, w, c);
    } else if n <= w * c {
      FewerWavesCover(n, w, c, budget);
    }
  }

  /** If `w` waves of `c` cover more than one wave, fewer waves of twice the size do, too. */
  lemma FewerWavesCover(n: nat, w: nat, c: nat, budget: nat)
    requires 0 < c < n <= w * c && 2 * c <= budget
    ensures CeilDiv(n, budget) != w
  {
    if w <= 1 {
      MulMonotone(w, 1, c);
    } else {
      CeilDivIsLeast(n, budget, w - 1);
      SmallerFactor(w - 1, 2 * c, budget);
      Reassociate(w - 1, 2, c);
      MulMonotone(w, (w - 1) * 2, c);
    }
  }

  /** Units cut to the ceiling: they compare like their numbers, and a hundred of them saturate. */
  lemma CeilingUnits(a: nat, c: nat)
    ensures Times(a, PERCENT_CEILING) <= Times(c, PERCENT_CEILING) <==> a <= c
    ensures c >= 1 ==> PERCENT_CEILING <= Times(c, PERCENT_CEILING)
    ensures a <= 1 ==> Times(a, PERCENT_CEILING) <= PERCENT_CEILING
    ensures a >= 2 ==> Times(a, PERCENT_CEILING) > PERCENT_CEILING
    ensures Times(c, PERCENT_CEILING) >= U64_MAX <==> c >= 100
  {
    CeilDivIsLeast(U64_MAX, 100, U64_MAX / 100);
    CeilDivIsLeast(U64_MAX, 100, U64_MAX / 100 + 1);
    assert PERCENT_CEILING == U64_MAX / 100 + 1;
  }

  /** Both sides in terms of the waves and units of the two arrangements. */
  lemma TwinWalls(i: Input)
    requires i.dual && !i.shared && ChromeProcessBudget(i.parallelism) >= 2
    ensures var j, e, f, k, floor := i.(shared := true), ExactUnit(i), FollowUps(i), Factor(i), Scaled(ExactWork(i), Factor(i));
      && WallEstimate(i) == Walled(k, Times(Waves(i) + f, Scaled(e, k)), floor)
      && WallEstimate(j) == Walled(k, Times(Waves(j) + f, Scaled(2 * e, k)), floor)
  {
    SharedTwin(i);
    SameWork(i);
    WavesAre(i);
    WavesAre(i.(shared := true));
    hide ExactUnit, Waves, FollowUps, WallEstimate, Factor, ExactWork, Scaled, SerialVerticals;
    WallIs(i);
    WallIs(i.(shared := true));
  }

  /** `a` dual waves of unit `u` against `c` shared ones of unit `v`, over a common floor. */
  lemma WalledComparison(factor: nat, a: nat, c: nat, floor: nat)
    requires floor <= PERCENT_CEILING
    ensures Walled(factor, a, floor) <= Walled(factor, c, floor)
       <==> (a <= c || c >= U64_MAX || (factor > 100 && a <= floor))
  {
    CeilDivIsLeast(U64_MAX, 100, U64_MAX - 1);
  }

  /** The two sequences of waves, counted in units: sub-queries in waves, and the follow-ups. */
  function DualUnitsInARow(i: Input): nat {
    Waves(i) + FollowUps(i)
  }

  function SharedUnitsInARow(i: Input): nat {
    Waves(i.(shared := true)) + FollowUps(i)
  }

  lemma UnitsInARow(i: Input)
    requires i.dual && !i.shared && ChromeProcessBudget(i.parallelism) >= 2
    ensures DualUnitsInARow(i) >= 1 && SharedUnitsInARow(i) >= 1
    ensures DualUnitsInARow(i) <= SharedUnitsInARow(i)
       <==> SubQueries(i) <= Quotient(ChromeProcessBudget(i.parallelism), 2)
    ensures DualUnitsInARow(i) <= 2 * SharedUnitsInARow(i)
       <==> DualNeverSlower(SubQueries(i), ChromeProcessBudget(i.parallelism), FollowUps(i))
  {
    SharedTwin(i);
    WavesAre(i);
    WavesAre(i.(shared := true));
    hide CeilDiv, Quotient, SubQueries, FollowUps, DualNeverSlower, ChromeProcessBudget;
    OneWaveIsEnough(SubQueries(i), ChromeProcessBudget(i.parallelism));
    HalfCapacityWaves(SubQueries(i), ChromeProcessBudget(i.parallelism), FollowUps(i));
  }

  /** What does not fit for one vertical fits for no more of them. */
  lemma MoreFitsLess(e: nat, more: nat, k: nat)
    requires e <= more && Fits(more, k)
    ensures Fits(e, k)
  {
    MulMonotone(e, more, k);
  }

  lemma ScaledFits(seconds: nat, factor: nat)
    requires factor >= 100 && Fits(seconds, factor)
    ensures Scaled(seconds, factor) == CeilDiv(Times(seconds, factor), 100)
    ensures factor == 100 ==> Scaled(seconds, factor) == seconds
  {
    CeilDivIsLeast(seconds * 100, 100, seconds);
    if seconds > 0 {
      CeilDivIsLeast(seconds * 100, 100, seconds - 1);
    }
  }

  lemma HugeTwins(i: Input)
    requires i.dual && !i.shared && ChromeProcessBudget(i.parallelism) >= 2 && !Fits(ExactUnit(i), Factor(i))
    ensures var k, floor := Factor(i), Scaled(ExactWork(i), Factor(i));
      && WallEstimate(i) == Walled(k, Times(DualUnitsInARow(i), PERCENT_CEILING), floor)
      && WallEstimate(i.(shared := true)) == Walled(k, Times(SharedUnitsInARow(i), PERCENT_CEILING), floor)
  {
    var e, k := ExactUnit(i), Factor(i);
    FactorAtLeastOne(i);
    hide ExactUnit, Waves, FollowUps, WallEstimate, Factor, ExactWork, ChromeProcessBudget, Scaled, Fits, Times, Walled;
    TwinWalls(i);
    ScaledIs(e, k);
    ScaledIs(2 * e, k);
    if Fits(2 * e, k) {
      MoreFitsLess(e, 2 * e, k);
    }
  }

  /** The unit of one vertical saturates: both arrangements count the same unit. */
  lemma HugeUnits(i: Input)
    requires i.dual && !i.shared && ChromeProcessBudget(i.parallelism) >= 2 && !Fits(ExactUnit(i), Factor(i))
    ensures WallEstimate(i) <= WallEstimate(i.(shared := true))
       <==> (SubQueries(i) <= Quotient(ChromeProcessBudget(i.parallelism), 2) || SharedUnitsInARow(i) >= 100)
  {
    var e, k, a, c := ExactUnit(i), Factor(i), DualUnitsInARow(i), SharedUnitsInARow(i);
    FactorAtLeastOne(i);
    hide ExactUnit, Waves, FollowUps, WallEstimate, Factor, ExactWork, SubQueries, ChromeProcessBudget, Scaled, Quotient, CeilDiv,
         Fits, Times, Walled, DualNeverSlower, SharedUnitsInARow, DualUnitsInARow;
    HugeTwins(i);
    UnitsInARow(i);
    ScaledIs(ExactWork(i), k);
    CeilingUnits(a, c);
    WalledComparison(k, Times(a, PERCENT_CEILING), Times(c, PERCENT_CEILING), Scaled(ExactWork(i), k));
  }

  /** Only the shared unit, of two verticals in a row, saturates. */
  lemma LargeUnits(i: Input)
    requires i.dual && !i.shared && ChromeProcessBudget(i.parallelism) >= 2
    requires Fits(ExactUnit(i), Factor(i)) && !Fits(2 * ExactUnit(i), Factor(i))
    ensures WallEstimate(i) <= WallEstimate(i.(shared := true))
       <==> (Times(DualUnitsInARow(i), Scaled(ExactUnit(i), Factor(i))) <= Times(SharedUnitsInARow(i), PERCENT_CEILING)
             || SharedUnitsInARow(i) >= 100)
  {
    var e, k, a, c := ExactUnit(i), Factor(i), DualUnitsInARow(i), SharedUnitsInARow(i);
    FactorAtLeastOne(i);
    hide ExactUnit, Waves, FollowUps, WallEstimate, Factor, ExactWork, SubQueries, ChromeProcessBudget, Scaled, Quotient, CeilDiv,
         Fits, Times, Walled, DualNeverSlower;
    TwinWalls(i);
    UnitsInARow(i);
    ScaledIs(2 * e, k);
    ScaledIs(ExactWork(i), k);
    CeilingUnits(a, c);
    WalledComparison(k, Times(a, Scaled(e, k)), Times(c, PERCENT_CEILING), Scaled(ExactWork(i), k));
  }

  lemma UncontendedUnits(e: nat)
    requires Fits(2 * e, 100)
    ensures Scaled(e, 100) == e && Scaled(2 * e, 100) == 2 * e
  {
    ScaledFits(e, 100);
    ScaledFits(2 * e, 100);
  }

  lemma ComparedUnits(a: nat, c: nat, e: nat)
    ensures Times(a, e) <= Times(c, 2 * e) <==> e == 0 || a <= 2 * c
  {
    ScaledComparison(a, c, e);
  }

  lemma SaturatedComparison(x: nat, y: nat)
    ensures Sat(x) <= Sat(y) <==> x <= y || y >= U64_MAX
  {
  }

  lemma UncontendedTwins(i: Input)
    requires i.dual && !i.shared && ChromeProcessBudget(i.parallelism) >= 2
    requires Factor(i) == 100 && Fits(2 * ExactUnit(i), 100)
    ensures WallEstimate(i) == Sat(Times(DualUnitsInARow(i), ExactUnit(i)))
    ensures WallEstimate(i.(shared := true)) == Sat(Times(SharedUnitsInARow(i), 2 * ExactUnit(i)))
  {
    hide ExactUnit, Waves, FollowUps, WallEstimate, ExactWork, ChromeProcessBudget, Scaled, Factor, Times, Sat;
    TwinWalls(i);
    UncontendedUnits(ExactUnit(i));
  }

  /** No unit saturates on an uncontended host: as without saturation, or the shared waves saturate. */
  lemma SmallUnitsUncontended(i: Input)
    requires i.dual && !i.shared && ChromeProcessBudget(i.parallelism) >= 2
    requires Uncontended(i) && Fits(2 * ExactUnit(i), 100)
    ensures WallEstimate(i) <= WallEstimate(i.(shared := true))
       <==> (ExactUnit(i) == 0 || DualNeverSlower(SubQueries(i), ChromeProcessBudget(i.parallelism), FollowUps(i))
             || Times(SharedUnitsInARow(i), 2 * ExactUnit(i)) >= U64_MAX)
  {
    var e, a, c := ExactUnit(i), DualUnitsInARow(i), SharedUnitsInARow(i);
    UncontendedTwins(i);
    hide *;
    UnitsInARow(i);
    ComparedUnits(a, c, e);
    SaturatedComparison(Times(a, e), Times(c, 2 * e));
  }

  /** No unit saturates on a contended host, but the floor under the work does. */
  lemma SmallUnitsContended(i: Input)
    requires i.dual && !i.shared && ChromeProcessBudget(i.parallelism) >= 2
    requires Factor(i) > 100 && Fits(2 * ExactUnit(i), Factor(i)) && !WorkFitsPercent(i)
    ensures var dual := Times(DualUnitsInARow(i), Scaled(ExactUnit(i), Factor(i)));
            var shared := Times(SharedUnitsInARow(i), Scaled(2 * ExactUnit(i), Factor(i)));
            (WallEstimate(i) <= WallEstimate(i.(shared := true)))
              == (dual <= PERCENT_CEILING || dual <= shared || shared >= U64_MAX)
  {
    var e, k, a, c := ExactUnit(i), Factor(i), DualUnitsInARow(i), SharedUnitsInARow(i);
    assert !Fits(ExactWork(i), k);
    hide ExactUnit, Waves, FollowUps, WallEstimate, Factor, ExactWork, SubQueries, ChromeProcessBudget, Scaled, Quotient, CeilDiv,
         Fits, Times, Walled, WorkFitsPercent;
    TwinWalls(i);
    ScaledIs(ExactWork(i), k);
    WalledComparison(k, Times(a, Scaled(e, k)), Times(c, Scaled(2 * e, k)), PERCENT_CEILING);
  }

  /** Under a budget of one both arrangements are the same run. */
  lemma OneProcessTies(i: Input)
    requires i.dual && !i.shared && ChromeProcessBudget(i.parallelism) == 1
    ensures WallEstimate(i) == WallEstimate(i.(shared := true))
  {
    SharedTwin(i);
    SameWork(i);
    WavesAre(i);
    WavesAre(i.(shared := true));
    hide ExactUnit, Waves, FollowUps, WallEstimate, Factor, ExactWork;
    WallIs(i);
    WallIs(i.(shared := true));
  }

  lemma HugeTwin(i: Input)
    requires i == FromCli(2, false, 1, true, 0).(serpSeconds := U64_MAX, parallelism := 2)
    ensures var j := i.(shared := true);
      && Uncontended(i) && Uncontended(j) && !WorkFitsPercent(i)
      && Waves(i) == 2 && Waves(j) == 1 && FollowUps(i) == FollowUps(j) == 0
      && ExactUnitWall(i) == U64_MAX && ExactUnitWall(j) == 2 * U64_MAX
  {
    var j := i.(shared := true);
    SameWork(i);
    WavesAre(i);
    WavesAre(j);
    QuotientUnique(2, 2, 1);
    hide Quotient, ExactWork;
    CeilDivIsLeast(2, 1, 1);
    CeilDivIsLeast(2, 1, 2);
    CeilDivIsLeast(2, 2, 1);
    CeilDivIsLeast(2, 2, 0);
    assert SubQueries(i) == 2 && ExactUnit(i) == U64_MAX;
  }

  /** Where the unit itself saturates, even an even budget does not protect the dual arrangement. */
  lemma SaturationCanReverse()
    ensures var i := FromCli(2, false, 1, true, 0).(serpSeconds := U64_MAX, parallelism := 2);
      Uncontended(i) && !WorkFitsPercent(i) && WallEstimate(i) > WallEstimate(i.(shared := true))
  {
    var i := FromCli(2, false, 1, true, 0).(serpSeconds := U64_MAX, parallelism := 2);
    HugeTwin(i);
    hide WallEstimate, Waves, FollowUps, ExactUnitWall, WorkFitsPercent, Factor;
    CutWall(i);
    CutWall(i.(shared := true));
    CeilDivIsLeast(U64_MAX, 100, 0);
    CeilDivIsLeast(U64_MAX, 100, U64_MAX / 100 + 1);
  }

  // ----- The gate -----

  /** The margin never takes time away, up to the one ceiling where the multiplication saturates. */
  lemma GateCoversEstimate(estimate: u64, margin: u64)
    ensures Gate(estimate, margin) >= estimate <==> estimate <= 184467440737095517
  {
    var percent := SatAdd(100, Min(margin, 100));
    CeilDivIsLeast(U64_MAX, 100, PERCENT_CEILING);
    if estimate > 0 {
      CeilDivIsLeast(SatMul(estimate, percent), 100, estimate - 1);
      CeilDivIsLeast(U64_MAX, 100, estimate - 1);
      SmallerFactor(estimate, 100, percent);
    }
  }

  /** The gate is the estimate and its margin, of at most 100 percent, rounded up, as long as nothing saturates. */
  lemma GateAddsTheMargin(estimate: u64, margin: u64, t: nat)
    requires estimate * 200 <= U64_MAX
    ensures Gate(estimate, margin) <= t <==> estimate * (100 + if margin > 100 then 100 else margin) <= t * 100
  {
    var percent := 100 + if margin > 100 then 100 else margin;
    SmallerFactor(estimate, percent, 200);
    if estimate > 0 {
      PercentIsCeiling(estimate, percent, t);
    } else {
      assert estimate * percent == 0;
    }
  }

  /** Validation with automatic raising never rejects and settles on the larger of the two times. */
  lemma AutoRaiseNeverRejects(i: Input, timeout: u64, allow: bool)
    ensures var d := Validate(i, timeout, allow, true);
      d.Proceed? && d.effectiveTimeout == Max(timeout, Gated(i)) && d.autoRaised == (timeout < Gated(i))
  {
    hide WallEstimate, Gate;
  }

  /** The raised timeout passes validation again, whatever the flags, and is left alone. */
  lemma RaisedTimeoutIsStable(i: Input, timeout: u64, allow: bool, allow': bool, auto': bool)
    ensures var t := Validate(i, timeout, allow, true).effectiveTimeout;
      Validate(i, t, allow', auto') == Proceed(WallEstimate(i), Gated(i), t, false, false)
  {
    hide WallEstimate, Gate;
    AutoRaiseNeverRejects(i, timeout, allow);
  }

  /** The report says the budget is fine exactly when the run would not be turned away. */
  lemma BudgetOkAgreesWithValidation(i: Input, timeout: u64, allow: bool)
    ensures BudgetOk(i, timeout, allow) <==> Validate(i, timeout, allow, false).Proceed?
  {
    hide WallEstimate, Gate;
  }

  /** The suggestion is reported as met unless the caller overrode the gate and did not ask for a raise. */
  lemma SuggestionReport(i: Input, timeout: u64, allow: bool, auto: bool)
    requires Validate(i, timeout, allow, auto).Proceed?
    ensures BudgetOkSuggested(i, auto, Validate(i, timeout, allow, auto).effectiveTimeout)
       <==> !Validate(i, timeout, allow, auto).allowUnderBudget
  {
    hide WallEstimate, Gate;
  }

  /** Asked to raise the timeout, the report takes the suggestion for met. */
  lemma RaiseMeetsTheSuggestion(i: Input, effectiveTimeout: u64)
    ensures BudgetOkSuggested(i, true, effectiveTimeout)
    ensures BudgetOkSuggested(i, false, effectiveTimeout) <==> Gated(i) <= effectiveTimeout
  {
    hide WallEstimate, Gate;
  }

  /** Whatever validation decides, it reports the estimate, the gate and the timeout it decided on. */
  lemma DecisionReportsItsNumbers(i: Input, timeout: u64, allow: bool, auto: bool)
    ensures match Validate(i, timeout, allow, auto)
            case Proceed(estimate, gated, effective, under, raised) =>
              && estimate == WallEstimate(i) && gated == Gated(i)
              && (raised ==> auto && effective == gated && !under) && (!raised ==> effective == timeout)
              && (under <==> allow && !raised && timeout < gated)
            case Reject(estimate, gated, given) =>
              estimate == WallEstimate(i) && gated == Gated(i) && given == timeout && timeout < gated && !allow && !auto
  {
    hide WallEstimate, Gate;
  }

  /** A workload never becomes acceptable by asking for more, with the same timeout and flags. */
  lemma RejectionIsMonotone(a: Input, b: Input, timeout: u64, allow: bool)
    requires AsksNoMore(a, b) && Validate(a, timeout, allow, false).Reject?
    ensures Validate(b, timeout, allow, false).Reject?
  {
    GatedMonotone(a, b);
    hide WallEstimate, Gate, AsksNoMore;
  }

  // ----- The product defaults -----

  /** The default thresholds: 20 and 40 Chromes, twice and two and a half times the cost. */
  lemma DefaultBands(n: u64, maxSubQueries: u64, fetch: bool, cap: u64, dual: bool, depth: u32)
    ensures var i := FromCli(maxSubQueries, fetch, cap, dual, depth).(chromeN := n);
            Factor(i) == if n < 20 then 100 else if n < 40 then 200 else 250
  {
  }

  /** The defaults describe an idle host, five processes and no shared session, as they are before any override. */
  lemma DefaultHost(maxSubQueries: u64, fetch: bool, cap: u64, dual: bool, depth: u32)
    ensures var i := FromCli(maxSubQueries, fetch, cap, dual, depth);
            && i.chromeN == 0 && !i.shared && ChromeProcessBudget(i.parallelism) == 5
            && i.maxSubQueries == maxSubQueries && i.depth == depth && i.dual == dual
  {
  }

  lemma DefaultWall(n: u64)
    requires n <= 1000
    ensures WallEstimate(FromCli(n, true, 4, true, 0)) == CeilDiv(Max(n, 1), 2) * 28
  {
    var i := FromCli(n, true, 4, true, 0);
    assert ExactUnit(i) == 28 && FollowUps(i) == 0;
    SameWork(i);
    SmallWall(i);
    WavesAre(i);
    QuotientUnique(5, 2, 2);
  }

  lemma SmallDefaults(n: u64)
    requires n <= 1000
    ensures Gated(FromCli(n, true, 4, true, 0)) <= 180 <==> n <= 10
  {
    DefaultWall(n);
    hide WallEstimate, Quotient;
    var waves := CeilDiv(Max(n, 1), 2);
    CeilDivIsLeast(Max(n, 1), 2, 5);
    CeilDivIsLeast(Max(n, 1), 2, 0);
    PercentIsCeiling(waves * 28, 110, 180);
  }

  /** With the default knobs, up to ten sub-queries fit the default global timeout of 180 seconds, and no more. */
  lemma DefaultsFitUpToTen(n: u64)
    ensures Gated(FromCli(n, true, 4, true, 0)) <= 180 <==> n <= 10
  {
    hide Gated;
    if n <= 10 {
      SmallDefaults(n);
    } else {
      SmallDefaults(11);
      GatedMonotone(FromCli(11, true, 4, true, 0), FromCli(n, true, 4, true, 0));
    }
  }
}
