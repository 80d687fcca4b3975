/** For which unit costs the thin profile stays below the lab profile on every workload. */
module BudgetProfiles {
  import opened Common
  import opened Arithmetic
  import opened Concurrency
  import opened Budget
  import opened BudgetLaws

  /** The percentage the lab profile gates with: the caller's own margin. */
  function GatePercent(i: Input): u64 {
    100 + Min(i.marginPercent, 100)
  }

  /** The caller's unit costs, margin included, are not below those the thin profile pins. */
  predicate CostsAtLeastThin(i: Input) {
    Times(i.serpSeconds, GatePercent(i)) >= 5 * 110 && Times(i.fetchSeconds, GatePercent(i)) >= 3 * 110
  }

  function ThinOf(i: Input): Input {
    WithProfile(i, Some(Thin))
  }

  function LabOf(i: Input): Input {
    WithProfile(i, Some(Lab))
  }

  // ----- Comparison up to the two margins, saturation included -----

  /** `a` with the thin margin is at most `b` with margin `m`, both as saturating products. */
  predicate Below(a: u64, b: u64, m: nat) {
    Sat(110 * a) <= Sat(m * b)
  }

  lemma BelowSat(x: nat, y: nat, m: nat)
    requires 110 * x <= m * y
    ensures Below(Sat(x), Sat(y), m)
  {
    SatMulExact(y, m);
    assert m * y == y * m && m * Sat(y) == Sat(y) * m;
  }

  lemma BelowFull(a: u64, b: u64, m: nat)
    requires m * b >= U64_MAX
    ensures Below(a, b, m)
  {
  }

  lemma BelowMax(a: u64, b: u64, a': u64, b': u64, m: nat)
    requires Below(a, b, m) && Below(a', b', m)
    ensures Below(Max(a, a'), Max(b, b'), m)
  {
    MulMonotone(b, Max(b, b'), m);
    MulMonotone(b', Max(b, b'), m);
    assert m * b == b * m && m * b' == b' * m && m * Max(b, b') == Max(b, b') * m;
  }

  lemma BelowLarger(a: u64, b: u64, c: u64, m: nat)
    requires Below(a, b, m) && b <= c
    ensures Below(a, c, m)
  {
    SmallerFactor(m, b, c);
  }

  /** `n` units each compare as one does. */
  lemma BelowTimes(n: nat, a: u64, b: u64, m: nat)
    requires n >= 1 && Below(a, b, m)
    ensures Below(Sat(n * a), Sat(n * b), m)
  {
    if 110 * a <= m * b {
      SmallerFactor(n, 110 * a, m * b);
      assert n * (110 * a) == 110 * (n * a);
      assert n * (m * b) == m * (n * b);
      BelowSat(n * a, n * b, m);
    } else {
      SmallerFactor(m, b, n * b) by { SmallerFactor(b, 1, n); }
      SatMulExact(n * b, m);
      assert m * Sat(n * b) == Sat(n * b) * m && m * (n * b) == (n * b) * m;
      assert Sat(m * Sat(n * b)) == U64_MAX;
    }
  }

  /** Contention bands as the two profiles pair them: no scaling for both, or a step of at least half a unit. */
  predicate BandPair(f: nat, g: nat) {
    (f == g == 100) || ((f == 100 || f == 150 || f == 200) && g >= f + 50)
  }

  lemma RoundingFitsTheStep(a: nat, f: nat, g: nat)
    requires BandPair(f, g)
    ensures CeilDiv(a * f, 100) * 100 <= a * g
  {
    hide Quotient;
    if f == g {
      CeilDivIsLeast(a * 100, 100, a);
      MulMonotone(CeilDiv(a * f, 100), a, 100);
    } else if a <= 1 {
      CeilDivIsLeast(a * f, 100, 2 * a);
      if f == 100 {
        CeilDivIsLeast(a * f, 100, a);
      }
      assert a == 0 ==> a * f == 0;
    } else {
      CeilDivCovers(a * f, 100);
      SmallerFactor(a, f + 50, g);
      assert a * (f + 50) == a * f + a * 50;
    }
  }

  lemma PercentAtMost(a: u64, f: u64)
    ensures PercentOf(a, f) <= CeilDiv(a * f, 100)
  {
    CeilDivMonotone(SatMul(a, f), a * f, 100, 100);
  }

  lemma FullPercent(b: u64, g: u64, m: nat)
    requires b * g > U64_MAX && m >= 100
    ensures m * PercentOf(b, g) >= U64_MAX
  {
    CeilDivCovers(U64_MAX, 100);
    MulMonotone(100, m, PercentOf(b, g));
  }

  lemma PercentGrows(b: u64, g: u64)
    requires g >= 100 && b * g <= U64_MAX
    ensures b <= PercentOf(b, g) && b * g <= 100 * PercentOf(b, g)
  {
    CeilDivCovers(b * g, 100);
    SmallerFactor(b, 100, g);
  }

  lemma BelowScaled(a: u64, b: u64, f: u64, g: u64, m: nat)
    requires Below(a, b, m) && BandPair(f, g) && m >= 100
    ensures Below(PercentOf(a, f), PercentOf(b, g), m)
  {
    var c, d := PercentOf(a, f), PercentOf(b, g);
    if b * g > U64_MAX {
      FullPercent(b, g, m);
      BelowFull(c, d, m);
    } else {
      PercentGrows(b, g);
      SmallerFactor(m, b, d);
      if m * b >= U64_MAX {
        BelowFull(c, d, m);
      } else {
        assert 110 * a <= m * b;
        RoundingFitsTheStep(a, f, g);
        PercentAtMost(a, f);
        hide PercentOf, CeilDiv;
        Chain(a, b, c, d, g, m);
        BelowSat(c, d, m);
      }
    }
  }

  lemma Chain(a: nat, b: nat, c: nat, d: nat, g: nat, m: nat)
    requires 110 * a <= m * b && 100 * c <= a * g && b * g <= 100 * d
    ensures 110 * c <= m * d
  {
    MulMonotone(110 * a, m * b, g);
    assert 110 * a * g == 110 * (a * g);
    assert m * b * g == m * (b * g);
    SmallerFactor(m, b * g, 100 * d);
    assert m * (100 * d) == 100 * (m * d);
  }

  // ----- The two profiles of one workload -----

  lemma ProfiledBands(i: Input)
    ensures BandPair(Factor(ThinOf(i)), Factor(LabOf(i)))
  {
  }

  lemma SameShape(i: Input)
    ensures var t, l := ThinOf(i), LabOf(i);
      && SerialVerticals(t) == SerialVerticals(l) && Verticals(t) == Verticals(l) && Waves(t) == Waves(l)
      && SubQueries(t) == SubQueries(l) && FollowUps(t) == FollowUps(l) && FetchedUrls(t) == FetchedUrls(l)
      && SubQueries(t) >= 1 && Waves(t) >= 1
  {
    hide Quotient;
  }

  lemma UnitsCompare(i: Input)
    requires CostsAtLeastThin(i)
    ensures 110 * ExactUnit(ThinOf(i)) <= GatePercent(i) * ExactUnit(LabOf(i))
  {
    var s: nat, f: nat, m: nat, u: nat := i.serpSeconds, i.fetchSeconds, GatePercent(i), FetchedUrls(i);
    SmallerFactor(u, 330, f * m);
    assert m * (s + u * f) == s * m + u * (f * m);
    assert m * s == s * m;
  }

  lemma UnitCostsBelow(i: Input)
    requires CostsAtLeastThin(i)
    ensures Below(UnitWall(ThinOf(i)), UnitWall(LabOf(i)), GatePercent(i))
    ensures Below(UnitWork(ThinOf(i)), UnitWork(LabOf(i)), GatePercent(i))
  {
    var t, l, m := ThinOf(i), LabOf(i), GatePercent(i);
    UnitsCompare(i);
    UnitsAreExact(t);
    UnitsAreExact(l);
    SameShape(i);
    hide ExactUnit, UnitWall, UnitWork, Waves, SubQueries, SerialVerticals, Verticals, ThinOf, LabOf, GatePercent;
    Multiple(SerialVerticals(t), ExactUnit(t), ExactUnit(l), m);
    Multiple(Verticals(t), ExactUnit(t), ExactUnit(l), m);
    BelowSat(SerialVerticals(t) * ExactUnit(t), SerialVerticals(t) * ExactUnit(l), m);
    BelowSat(Verticals(t) * ExactUnit(t), Verticals(t) * ExactUnit(l), m);
  }

  lemma Multiple(v: nat, x: nat, y: nat, m: nat)
    requires 110 * x <= m * y
    ensures 110 * (v * x) <= m * (v * y)
  {
    SmallerFactor(v, 110 * x, m * y);
    assert v * (110 * x) == 110 * (v * x);
    assert v * (m * y) == m * (v * y);
  }

  lemma WorkBelow(i: Input)
    requires CostsAtLeastThin(i)
    ensures Below(WorkEstimate(ThinOf(i)), WorkEstimate(LabOf(i)), GatePercent(i))
  {
    var t, l := ThinOf(i), LabOf(i);
    UnitCostsBelow(i);
    SameShape(i);
    hide UnitWork, UnitWall, SubQueries, Waves, GatePercent, Below;
    TotalIsExact(SubQueries(t), FollowUps(t), UnitWork(t));
    TotalIsExact(SubQueries(t), FollowUps(t), UnitWork(l));
    BelowTimes(SubQueries(t) + FollowUps(t), UnitWork(t), UnitWork(l), GatePercent(i));
  }

  lemma ScaleIsPercent(s: u64, p: u64)
    requires p >= 100
    ensures ScaleSeconds(s, p) == PercentOf(s, p)
  {
    CeilDivIsLeast(0, 100, 0);
  }

  lemma WavesBelow(i: Input)
    requires CostsAtLeastThin(i)
    ensures Below(WavesWall(ThinOf(i)), WavesWall(LabOf(i)), GatePercent(i))
  {
    var t, l := ThinOf(i), LabOf(i);
    UnitCostsBelow(i);
    SameShape(i);
    ProfiledBands(i);
    hide UnitWork, UnitWall, SubQueries, Waves, Factor, Below, PercentOf;
    ScaleIsPercent(UnitWall(t), Factor(t));
    ScaleIsPercent(UnitWall(l), Factor(l));
    BelowScaled(UnitWall(t), UnitWall(l), Factor(t), Factor(l), GatePercent(i));
    var a, b := PercentOf(UnitWall(t), Factor(t)), PercentOf(UnitWall(l), Factor(l));
    TotalIsExact(Waves(t), FollowUps(t), a);
    TotalIsExact(Waves(t), FollowUps(t), b);
    BelowTimes(Waves(t) + FollowUps(t), a, b, GatePercent(i));
  }

  lemma WallBelow(i: Input)
    requires CostsAtLeastThin(i)
    ensures Below(WallEstimate(ThinOf(i)), WallEstimate(LabOf(i)), GatePercent(i))
  {
    var t, l, m := ThinOf(i), LabOf(i), GatePercent(i);
    WavesBelow(i);
    WorkBelow(i);
    ProfiledBands(i);
    assert m >= 100;
    hide WavesWall, WorkEstimate, Factor, Below, PercentOf, GatePercent, ThinOf, LabOf;
    ScaleIsPercent(WorkEstimate(t), Factor(t));
    ScaleIsPercent(WorkEstimate(l), Factor(l));
    BelowScaled(WorkEstimate(t), WorkEstimate(l), Factor(t), Factor(l), m);
    BelowMax(WavesWall(t), WavesWall(l), PercentOf(WorkEstimate(t), Factor(t)), PercentOf(WorkEstimate(l), Factor(l)), m);
    BelowLarger(WavesWall(t), WavesWall(l), WallEstimate(l), m);
  }

  /** With such costs the thin profile never gates above the lab profile, saturation included. */
  lemma ThinStaysBelow(i: Input)
    requires CostsAtLeastThin(i)
    ensures Gated(ThinOf(i)) <= Gated(LabOf(i))
  {
    WallBelow(i);
    hide WallEstimate;
    GateIsPercent(WallEstimate(ThinOf(i)), 10);
    GateIsPercent(WallEstimate(LabOf(i)), i.marginPercent);
    CeilDivMonotone(Sat(110 * WallEstimate(ThinOf(i))), Sat(GatePercent(i) * WallEstimate(LabOf(i))), 100, 100);
  }

  lemma GateIsPercent(e: u64, margin: u64)
    ensures Gate(e, margin) == CeilDiv(Sat((100 + Min(margin, 100)) * e), 100)
  {
    CeilDivIsLeast(0, 100, 0);
    assert (100 + Min(margin, 100)) * e == e * (100 + Min(margin, 100));
  }

  // ----- Otherwise some workload tells them apart -----

  predicate SameKnobs(i: Input, j: Input) {
    i.serpSeconds == j.serpSeconds && i.fetchSeconds == j.fetchSeconds && i.marginPercent == j.marginPercent
  }

  /** `n` sub-queries one after the other on an idle host, with up to `cap` pages each. */
  function Serially(i: Input, n: u64, fetch: bool, cap: u64): Input {
    i.(maxSubQueries := n, fetchContent := fetch, fetchCap := cap, dual := false, depth := 0, parallelism := 1,
       chromeN := 0, shared := false)
  }

  lemma SerialShape(i: Input, n: u64, fetch: bool, cap: u64)
    requires n >= 1 && i.contention.low > 0
    ensures var j := Serially(i, n, fetch, cap);
      Waves(j) == n && FollowUps(j) == 0 && SerialVerticals(j) == 1 && Uncontended(j)
  {
    QuotientUnique(1, 1, 1);
    hide Quotient;
    CeilDivIsLeast(n, 1, n);
    CeilDivIsLeast(n, 1, n - 1);
  }

  lemma SerialWall(i: Input, n: u64, fetch: bool, cap: u64)
    requires n >= 1 && i.contention.low > 0
    requires Times(Times(n, ExactUnit(Serially(i, n, fetch, cap))), 100) <= U64_MAX
    ensures WallEstimate(Serially(i, n, fetch, cap)) == Times(n, ExactUnit(Serially(i, n, fetch, cap)))
  {
    var j := Serially(i, n, fetch, cap);
    SerialShape(i, n, fetch, cap);
    hide ExactUnit, Waves, WallEstimate, Factor, Serially, FollowUps, SerialVerticals;
    MulMonotone(1, n, ExactUnit(j));
    WallAtMostExact(j);
  }

  /** One serial search with `cap` pages, or none, in each profile. */
  function ThinUnit(fetch: bool, cap: u64): nat {
    5 + if fetch then Times(Max(cap, 1), 3) else 0
  }

  function LabUnit(i: Input, fetch: bool, cap: u64): nat {
    i.serpSeconds + if fetch then Times(Max(cap, 1), i.fetchSeconds) else 0
  }

  lemma SerialProfiles(i: Input, n: u64, fetch: bool, cap: u64)
    ensures var j := Serially(i, n, fetch, cap);
      && ThinOf(j) == Serially(ThinOf(i), n, fetch, cap) && LabOf(j) == Serially(LabOf(i), n, fetch, cap)
      && ExactUnit(ThinOf(j)) == ThinUnit(fetch, cap) && ExactUnit(LabOf(j)) == LabUnit(i, fetch, cap)
      && ThinOf(i).contention.low > 0 && LabOf(i).contention.low > 0
      && ThinOf(j).marginPercent == 10 && LabOf(j).marginPercent == i.marginPercent
  {
  }

  /** What `percent` of `e` seconds gates at. */
  function GatedAt(percent: nat, e: nat): nat {
    CeilDiv(Sat(Times(percent, e)), 100)
  }

  lemma SerialGates(i: Input, n: u64, fetch: bool, cap: u64)
    requires n >= 1
    requires Times(Times(n, ThinUnit(fetch, cap)), 100) <= U64_MAX && Times(Times(n, LabUnit(i, fetch, cap)), 100) <= U64_MAX
    ensures Gated(ThinOf(Serially(i, n, fetch, cap))) == GatedAt(110, Times(n, ThinUnit(fetch, cap)))
    ensures Gated(LabOf(Serially(i, n, fetch, cap))) == GatedAt(GatePercent(i), Times(n, LabUnit(i, fetch, cap)))
  {
    var j := Serially(i, n, fetch, cap);
    SerialProfiles(i, n, fetch, cap);
    assert GatePercent(i) == 100 + Min(i.marginPercent, 100);
    hide Serially, ThinOf, LabOf, ExactUnit, WallEstimate, Gate, ThinUnit, LabUnit, CeilDiv, GatePercent;
    SerialWall(ThinOf(i), n, fetch, cap);
    SerialWall(LabOf(i), n, fetch, cap);
    GateIsPercent(WallEstimate(ThinOf(j)), 10);
    GateIsPercent(WallEstimate(LabOf(j)), i.marginPercent);
  }

  lemma StrictGate(a: nat, b: nat, m: nat)
    requires Times(110, a) <= U64_MAX && Times(m, b) + 100 <= Times(110, a)
    ensures GatedAt(m, b) < GatedAt(110, a)
  {
    hide Times, Quotient;
    CeilDivCovers(Times(m, b), 100);
    CeilDivCovers(Times(110, a), 100);
  }

  /** Too cheap a search shows on a hundred searches. */
  lemma CheapSearchShows(i: Input)
    requires Times(i.serpSeconds, GatePercent(i)) < 550
    ensures Gated(LabOf(Serially(i, 100, false, 1))) < Gated(ThinOf(Serially(i, 100, false, 1)))
  {
    hide Times, Gated, GatedAt, Serially, ThinOf, LabOf;
    var s: nat, m: nat := i.serpSeconds, GatePercent(i);
    assert m >= 100;
    CheapHundred(s, m);
    assert ThinUnit(false, 1) == 5 && LabUnit(i, false, 1) == s;
    SerialGates(i, 100, false, 1);
    StrictGate(Times(100, 5), Times(100, s), m);
  }

  lemma CheapHundred(s: nat, m: nat)
    requires Times(s, m) < 550 && m >= 100
    ensures Times(Times(100, s), 100) <= U64_MAX && Times(Times(100, 5), 100) <= U64_MAX
    ensures Times(110, Times(100, 5)) <= U64_MAX
    ensures Times(m, Times(100, s)) + 100 <= Times(110, Times(100, 5))
  {
    SmallerFactor(s, 100, m);
    assert m * (100 * s) == 100 * (s * m);
  }

  lemma PageUnits(i: Input, cap: u64)
    requires cap >= 1
    ensures Times(1, ThinUnit(true, cap)) == 5 + Times(cap, 3)
    ensures Times(1, LabUnit(i, true, cap)) == i.serpSeconds + Times(cap, i.fetchSeconds)
  {
    OneTime(5 + Times(cap, 3));
    OneTime(i.serpSeconds + Times(cap, i.fetchSeconds));
  }

  /** Too cheap a page shows on a search with enough pages. */
  lemma CheapPageShows(i: Input)
    requires Times(i.fetchSeconds, GatePercent(i)) < 330 && i.serpSeconds <= 100_000_000_000_000
    ensures exists j :: SameKnobs(i, j) && Gated(LabOf(j)) < Gated(ThinOf(j))
  {
    var s: nat, f: nat, m: nat := i.serpSeconds, i.fetchSeconds, GatePercent(i);
    hide Times, ThinUnit, LabUnit, Gated, GatedAt, Serially, ThinOf, LabOf, SameKnobs;
    assert 100 <= m <= 200;
    PageCap(s, f, m);
    var cap: u64 := Times(s, m) + 1;
    PageUnits(i, cap);
    SerialGates(i, 1, true, cap);
    StrictGate(5 + Times(cap, 3), s + Times(cap, f), m);
    SerialKeepsKnobs(i, 1, true, cap);
  }

  lemma SerialKeepsKnobs(i: Input, n: u64, fetch: bool, cap: u64)
    ensures SameKnobs(i, Serially(i, n, fetch, cap))
  {
  }

  lemma OneTime(a: nat)
    ensures Times(1, a) == a
  {
  }

  lemma PageCap(s: nat, f: nat, m: nat)
    requires s <= 100_000_000_000_000 && 100 <= m <= 200 && Times(f, m) < 330
    ensures Times(s, m) + 1 <= U64_MAX
    ensures var cap := Times(s, m) + 1;
      && Times(5 + Times(cap, 3), 100) <= U64_MAX && Times(s + Times(cap, f), 100) <= U64_MAX
      && Times(110, 5 + Times(cap, 3)) <= U64_MAX
      && Times(m, s + Times(cap, f)) + 100 <= Times(110, 5 + Times(cap, 3))
  {
    var cap := Times(s, m) + 1;
    SmallerFactor(f, 100, m);
    SmallerFactor(s, m, 200);
    PagesOutweigh(s, f, m, cap);
    hide Times;
    assert Times(s, m) <= 200 * s by { CapBound(s, m); }
    assert Times(cap, f) <= 3 * cap && Times(cap, 3) == 3 * cap by { PagesBound(cap, f); }
    TimesConstant(5 + Times(cap, 3));
    TimesConstant(s + Times(cap, f));
    assert Times(m, s + Times(cap, f)) + 100 <= Times(110, 5 + Times(cap, 3)) by { TimesOf(s, f, m, cap); }
  }

  lemma CapBound(s: nat, m: nat)
    requires m <= 200
    ensures Times(s, m) <= 200 * s
  {
    SmallerFactor(s, m, 200);
  }

  lemma PagesBound(cap: nat, f: nat)
    requires f <= 3
    ensures Times(cap, f) <= 3 * cap && Times(cap, 3) == 3 * cap
  {
    SmallerFactor(cap, f, 3);
  }

  lemma TimesConstant(a: nat)
    ensures Times(a, 100) == 100 * a && Times(110, a) == 110 * a
  {
  }

  lemma TimesOf(s: nat, f: nat, m: nat, cap: nat)
    requires m * (s + cap * f) + 100 <= 110 * (5 + cap * 3)
    ensures Times(m, s + Times(cap, f)) + 100 <= Times(110, 5 + Times(cap, 3))
  {
  }

  lemma PagesOutweigh(s: nat, f: nat, m: nat, cap: nat)
    requires f * m < 330 && cap == s * m + 1
    ensures m * (s + cap * f) + 100 <= 110 * (5 + cap * 3)
  {
    SmallerFactor(cap, f * m, 329);
    assert m * (s + cap * f) == s * m + cap * (f * m);
  }

  /**
   * The thin profile stays below the lab profile on every workload exactly when the caller's unit
   * costs, margin included, are not below the thin ones. (A search takes at most 10^14 seconds.)
   */
  lemma ThinStaysBelowExactly(i: Input)
    requires i.serpSeconds <= 100_000_000_000_000
    ensures (forall j: Input :: SameKnobs(i, j) ==> Gated(ThinOf(j)) <= Gated(LabOf(j))) <==> CostsAtLeastThin(i)
  {
    hide Gated;
    if CostsAtLeastThin(i) {
      forall j: Input | SameKnobs(i, j) ensures Gated(ThinOf(j)) <= Gated(LabOf(j)) {
        ThinStaysBelow(j);
      }
    } else if Times(i.serpSeconds, GatePercent(i)) < 550 {
      CheapSearchShows(i);
      assert SameKnobs(i, Serially(i, 100, false, 1));
    } else {
      CheapPageShows(i);
    }
  }

  /** The lab profile never gates above the desktop profile, whatever the costs. */
  lemma LabStaysBelowDesktop(i: Input)
    ensures Gated(LabOf(i)) <= Gated(WithProfile(i, Some(DesktopContended)))
  {
    hide Gated;
    GatedMonotone(LabOf(i), WithProfile(i, Some(DesktopContended)));
  }
}
