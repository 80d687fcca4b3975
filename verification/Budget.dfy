/**
 * The deep-research time estimator: what it computes, in saturating unsigned 64-bit arithmetic.
 */
module Budget {
  import opened Common
  import opened Arithmetic
  import opened Concurrency

  const U64_MAX: nat := 0xFFFF_FFFF_FFFF_FFFF
  const U32_MAX: nat := 0xFFFF_FFFF

  type u64 = n: nat | n <= U64_MAX
  type u32 = n: nat | n <= U32_MAX

  /** The value a saturating operation returns when the exact result is `n`. */
  function Sat(n: nat): u64 {
    Min(n, U64_MAX)
  }

  function SatAdd(a: u64, b: u64): u64 {
    Sat(a + b)
  }

  function SatMul(a: u64, b: u64): u64 {
    Sat(a * b)
  }

  /** `saturating_mul` followed by `div_ceil(100)`: a percentage, rounded up. */
  function PercentOf(a: u64, percent: u64): (r: u64) {
    CeilDivBound(SatMul(a, percent));
    CeilDiv(SatMul(a, percent), 100)
  }

  lemma CeilDivBound(n: u64)
    ensures CeilDiv(n, 100) <= n
  {
    CeilDivIsLeast(n, 100, n);
  }

  // ----- Inputs -----

  datatype Contention = Contention(low: u64, high: u64, midPercent: u64, highPercent: u64)

  const LAB_CONTENTION := Contention(20, 40, 200, 250)

  datatype Input = Input(
    maxSubQueries: u64, fetchContent: bool, fetchCap: u64, dual: bool, depth: u32,
    serpSeconds: u64, fetchSeconds: u64, marginPercent: u64, parallelism: u32, chromeN: u64,
    shared: bool, contention: Contention)

  function FromCli(maxSubQueries: u64, fetchContent: bool, fetchCap: u64, dual: bool, depth: u32): Input {
    Input(maxSubQueries, fetchContent, fetchCap, dual, depth, 8, 5, 10, 5, 0, false, LAB_CONTENTION)
  }

  predicate RuntimeDual(i: Input) {
    i.dual && PreferDualVerticalChrome(i.parallelism, Auto, i.shared)
  }

  function SlotsPerQuery(i: Input): nat {
    ChromeSlotsPerQuery(true, i.dual, RuntimeDual(i))
  }

  // ----- Contention -----

  function ContentionFactor(chromeN: u64, c: Contention): u64 {
    var high := Max(c.high, SatAdd(c.low, 1));
    if chromeN < c.low then 100
    else if chromeN < high then Max(c.midPercent, 100)
    else Max(Max(c.highPercent, c.midPercent), 100)
  }

  function Factor(i: Input): u64 {
    ContentionFactor(i.chromeN, i.contention)
  }

  function ScaleSeconds(seconds: u64, percent: u64): u64 {
    if seconds == 0 then 0 else PercentOf(seconds, Max(percent, 100))
  }

  // ----- Estimates -----

  function Verticals(i: Input): u64 {
    if i.dual then 2 else 1
  }

  function FetchedUrls(i: Input): u64 {
    Max(i.fetchCap, 1)
  }

  function UnitWall(i: Input): u64 {
    var serp := if i.dual then (if RuntimeDual(i) then i.serpSeconds else SatMul(i.serpSeconds, 2))
                else i.serpSeconds;
    var fetchVerts := if RuntimeDual(i) then 1 else Verticals(i);
    var fetch := if i.fetchContent then SatMul(SatMul(FetchedUrls(i), i.fetchSeconds), fetchVerts) else 0;
    SatAdd(serp, fetch)
  }

  function UnitWork(i: Input): u64 {
    var serp := SatMul(i.serpSeconds, Verticals(i));
    var fetch := if i.fetchContent then SatMul(SatMul(FetchedUrls(i), i.fetchSeconds), Verticals(i)) else 0;
    SatAdd(serp, fetch)
  }

  function SubQueries(i: Input): u64 {
    Max(i.maxSubQueries, 1)
  }

  function PerRound(i: Input): u64 {
    Min(Max(i.maxSubQueries, 1), 4)
  }

  function DepthExtra(i: Input, unit: u64): u64 {
    SatMul(SatMul(i.depth, PerRound(i)), unit)
  }

  function WorkEstimate(i: Input): u64 {
    SatAdd(SatMul(SubQueries(i), UnitWork(i)), DepthExtra(i, UnitWork(i)))
  }

  function Capacity(i: Input): (c: nat)
    ensures c >= 1
  {
    Max(Quotient(Max(ChromeProcessBudget(i.parallelism), 1), Max(SlotsPerQuery(i), 1)), 1)
  }

  function Waves(i: Input): u64 {
    CeilDivIsLeast(SubQueries(i), Capacity(i), SubQueries(i));
    SmallerFactor(SubQueries(i), 1, Capacity(i));
    Max(CeilDiv(SubQueries(i), Capacity(i)), 1)
  }

  function WavesWall(i: Input): u64 {
    var unit := ScaleSeconds(UnitWall(i), Factor(i));
    SatAdd(SatMul(Waves(i), unit), DepthExtra(i, unit))
  }

  function WallEstimate(i: Input): u64 {
    if Factor(i) > 100
    then Max(WavesWall(i), ScaleSeconds(WorkEstimate(i), Factor(i)))
    else WavesWall(i)
  }

  function Gate(estimate: u64, marginPercent: u64): u64 {
    if estimate == 0 then 0 else PercentOf(estimate, SatAdd(100, Min(marginPercent, 100)))
  }

  function Gated(i: Input): u64 {
    Gate(WallEstimate(i), i.marginPercent)
  }

  // ----- Validation and the discovery payload -----

  datatype Decision =
    | Proceed(estimate: u64, gated: u64, effectiveTimeout: u64, allowUnderBudget: bool, autoRaised: bool)
    | Reject(estimate: u64, gated: u64, timeout: u64)

  function Validate(i: Input, timeout: u64, allowUnderBudget: bool, autoRaise: bool): Decision {
    var estimate := WallEstimate(i);
    var gated := Gate(estimate, i.marginPercent);
    if autoRaise && timeout < gated then Proceed(estimate, gated, gated, false, true)
    else if timeout < gated && !allowUnderBudget then Reject(estimate, gated, timeout)
    else Proceed(estimate, gated, timeout, allowUnderBudget && timeout < gated, false)
  }

  predicate BudgetOk(i: Input, timeout: u64, allowUnderBudget: bool) {
    timeout >= Gate(WallEstimate(i), i.marginPercent) || allowUnderBudget
  }

  predicate BudgetOkSuggested(i: Input, autoRaise: bool, effectiveTimeout: u64) {
    effectiveTimeout >= Gated(i) || (autoRaise && Gated(i) > 0)
  }

  // ----- Profiles -----

  datatype Profile = Lab | DesktopContended | Thin

  /** Surrounding white space and ASCII case do not matter. */
  function ProfileNamed(name: string): Option<Profile> {
    var normalised := AsciiLower(Trim(name));
    if normalised == "desktop_contended" then Some(DesktopContended)
    else if normalised == "thin" then Some(Thin)
    else if normalised == "lab" then Some(Lab)
    else None
  }

  /** The knobs a profile pins or raises; everything else is the caller's. */
  function WithProfile(i: Input, p: Option<Profile>): Input {
    match p
    case None => i
    case Some(Lab) => i.(contention := LAB_CONTENTION)
    case Some(DesktopContended) =>
      i.(contention := Contention(12, 28, 220, 280), serpSeconds := Max(i.serpSeconds, 10),
         fetchSeconds := Max(i.fetchSeconds, 6), marginPercent := Max(i.marginPercent, 15))
    case Some(Thin) =>
      i.(contention := Contention(30, 50, 150, 200), serpSeconds := 5, fetchSeconds := 3, marginPercent := 10)
  }

  function ProfileName(p: Profile): string {
    match p case Lab => "lab" case DesktopContended => "desktop_contended" case Thin => "thin"
  }

  /** `name` is `word` in any letter case, with any white space around it. */
  ghost predicate Spells(name: string, word: string) {
    exists before, core, after ::
      name == before + core + after && IsBlank(before) && IsBlank(after) && AsciiLower(core) == word
  }

  /** A profile is found under its own name, whatever the case and the white space around it, and under no other. */
  lemma ProfileFoundExactly(name: string, p: Profile)
    ensures ProfileNamed(name) == Some(p) <==> Spells(name, ProfileName(p))
  {
    if ProfileNamed(name) == Some(p) {
      var before, after := TrimParts(name);
      assert AsciiLower(Trim(name)) == ProfileName(p);
    }
    if Spells(name, ProfileName(p)) {
      var before, core, after :|
        name == before + core + after && IsBlank(before) && IsBlank(after) && AsciiLower(core) == ProfileName(p);
      EndsOfName(core, p);
      TrimPadded(before, core, after);
    }
  }

  lemma EndsOfName(core: string, p: Profile)
    requires AsciiLower(core) == ProfileName(p)
    ensures core != "" && !IsWhitespace(core[0]) && !IsWhitespace(core[|core| - 1])
  {
    var word := ProfileName(p);
    assert AsciiLowerChar(core[0]) == word[0] && AsciiLowerChar(core[|core| - 1]) == word[|word| - 1];
    assert 'a' <= word[0] <= 'z' && 'a' <= word[|word| - 1] <= 'z';
  }

  /** The two describe the same work on the same machine; only unit times, margin and bands may differ. */
  predicate SameWorkload(a: Input, b: Input) {
    && a.maxSubQueries == b.maxSubQueries && a.fetchContent == b.fetchContent && a.fetchCap == b.fetchCap
    && a.dual == b.dual && a.depth == b.depth && a.parallelism == b.parallelism
    && a.chromeN == b.chromeN && a.shared == b.shared
  }

  /** The field-by-field assignments through the mutable reference. */
  method ApplyBudgetProfile(input: Input, name: string) returns (out: Input)
    ensures out == WithProfile(input, ProfileNamed(name))
    ensures SameWorkload(input, out)
    ensures (forall p :: !Spells(name, ProfileName(p))) ==> out == input
    ensures Spells(name, "lab") ==>
      out.contention == Contention(20, 40, 200, 250) && out.(contention := input.contention) == input
    ensures Spells(name, "desktop_contended") ==>
      && out.contention == Contention(12, 28, 220, 280)
      && out.serpSeconds == (if input.serpSeconds < 10 then 10 else input.serpSeconds)
      && out.fetchSeconds == (if input.fetchSeconds < 6 then 6 else input.fetchSeconds)
      && out.marginPercent == (if input.marginPercent < 15 then 15 else input.marginPercent)
    ensures Spells(name, "thin") ==>
      && out.contention == Contention(30, 50, 150, 200)
      && out.serpSeconds == 5 && out.fetchSeconds == 3 && out.marginPercent == 10
  {
    ProfileFoundExactly(name, Lab);
    ProfileFoundExactly(name, DesktopContended);
    ProfileFoundExactly(name, Thin);
    assert ProfileNamed(name).Some? ==> Spells(name, ProfileName(ProfileNamed(name).value));
    hide Spells, Trim;
    out := input;
    var normalised := AsciiLower(Trim(name));
    if normalised == "desktop_contended" {
      out := out.(contention := out.contention.(low := 12));
      out := out.(contention := out.contention.(high := 28));
      out := out.(contention := out.contention.(midPercent := 220));
      out := out.(contention := out.contention.(highPercent := 280));
      out := out.(serpSeconds := Max(out.serpSeconds, 10));
      out := out.(fetchSeconds := Max(out.fetchSeconds, 6));
      out := out.(marginPercent := Max(out.marginPercent, 15));
    } else if normalised == "thin" {
      out := out.(serpSeconds := 5);
      out := out.(fetchSeconds := 3);
      out := out.(marginPercent := 10);
      out := out.(contention := out.contention.(low := 30));
      out := out.(contention := out.contention.(high := 50));
      out := out.(contention := out.contention.(midPercent := 150));
      out := out.(contention := out.contention.(highPercent := 200));
    } else if normalised == "lab" {
      out := out.(contention := LAB_CONTENTION);
    }
  }
}
