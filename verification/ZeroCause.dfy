/** Why a search came back empty: the marker detector and the causal classifier built on it. */
module ZeroCause {
  import opened Common
  import opened Utf8

  // ----- The detector -----

  datatype Kind = NoInterstitial | Cloudflare | DuckDuckGo

  const CLOUDFLARE_MARKERS: seq<string> := [
    "cf-chl-bypass", "cf-challenge", "challenge-platform", "Attention Required", "__cf_chl_jschl_tk__",
    "anomaly-modal", "anomaly-modal__mask", "anomaly-modal__title", "anomaly.js?cc=botnet", "cf-turnstile",
    "cf-spinner", "Just a moment", "cf-mitigated", "anomaly.js", "botnet", "cf-error-code", "cf-ray",
    "Performance & Security by Cloudflare"]

  const DDG_MARKERS: seq<string> := [
    "robot-detected", "bots, we have detected", "Unfortunately, bots use DuckDuckGo too.", "Unfortunately, bots"]

  const RESULT_PAGE_SELECTORS: seq<string> := [
    "result__a", "class=\"result\"", "class='result'", "result-link", "result__title", "result__snippet",
    "nrn-react-div", "data-testid=\"result\"", "data-testid=\"news-vertical\"",
    "data-testid=\"no-results-message\"", "data-react-module-id=\"news\"", "news-vertical", "react-article",
    "module--results", "js-react-aria-results"]

  const GHOST_BLOCK_SENTINEL := "<ghost-block-no-marker>"
  const EMPTY_BODY_SENTINEL := "<empty-body>"
  const NO_MARKER_SENTINEL := "<no-marker>"
  const THRESHOLD: nat := 4000

  /** The first of `markers` that occurs in `html`: a loop with an early return. */
  function FirstMatch(html: string, markers: seq<string>): Option<string> {
    if markers == [] then None
    else if Contains(html, markers[0]) then Some(markers[0])
    else FirstMatch(html, markers[1..])
  }

  predicate PageSignal(html: string) {
    FirstMatch(html, RESULT_PAGE_SELECTORS).Some?
  }

  function ByteLength(html: string): nat {
    |Encode(html)|
  }

  function Marker(html: string): Option<(string, Kind)> {
    match FirstMatch(html, CLOUDFLARE_MARKERS)
    case Some(m) => Some((m, Cloudflare))
    case None =>
      match FirstMatch(html, DDG_MARKERS)
      case Some(m) => Some((m, DuckDuckGo))
      case None => None
  }

  function DetectWithMatch(html: string): (string, Kind) {
    if html == "" then (EMPTY_BODY_SENTINEL, NoInterstitial)
    else if !PageSignal(html) && Marker(html).Some? then Marker(html).value
    else if ByteLength(html) < THRESHOLD && !PageSignal(html) then (GHOST_BLOCK_SENTINEL, Cloudflare)
    else (NO_MARKER_SENTINEL, NoInterstitial)
  }

  /** The health check of a probe. */
  predicate ProbeHealthy(body: string, httpStatus: nat) {
    DetectWithMatch(body).1 == NoInterstitial && httpStatus < 400
  }

  // ----- The classifier -----

  datatype Cause =
    | Legitimate | GhostBlock | AntiBot | InvalidResponse | SilentFilter | SuspiciousZeroResults | VerticalNoResults

  predicate NonLegitimate(c: Cause) {
    !c.Legitimate? && !c.VerticalNoResults?
  }

  datatype Inputs = Inputs(
    body: string, preFlightEnabled: bool, preFlightFired: bool, executionTimeMs: nat, retries: nat,
    concurrentFetches: nat, probeLevel: Option<nat>)

  predicate HomePage(body: string) {
    Contains(body, "search_form") || Contains(body, "DuckDuckGo") || Contains(body, "dropdown__button")
  }

  predicate ShellPage(body: string) {
    HomePage(body) || Contains(body, "__DDG_BV") || Contains(body, SERP_QUERY_FRAGMENT)
  }

  const SERP_QUERY_FRAGMENT := "duckduckgo.com/?q="

  predicate ProbeSawBlock(i: Inputs) {
    i.probeLevel.Some? && i.probeLevel.value >= 1
  }

  /** The guards in source order. */
  function Classify(i: Inputs): Cause {
    var (marker, kind) := DetectWithMatch(i.body);
    if i.body == "" && i.executionTimeMs == 0 && i.retries == 0 && i.concurrentFetches == 0 then InvalidResponse
    else if i.preFlightEnabled && i.preFlightFired then AntiBot
    else if ProbeSawBlock(i) && ByteLength(i.body) >= THRESHOLD && !PageSignal(i.body) && ShellPage(i.body)
    then GhostBlock
    else if kind != NoInterstitial then (if marker == GHOST_BLOCK_SENTINEL then GhostBlock else AntiBot)
    else if ByteLength(i.body) >= THRESHOLD && !PageSignal(i.body) && kind == NoInterstitial && HomePage(i.body)
    then GhostBlock
    else if ByteLength(i.body) < THRESHOLD && i.retries == 0 && i.concurrentFetches == 0
            && i.executionTimeMs >= 200 && !PageSignal(i.body)
    then SilentFilter
    else if ByteLength(i.body) >= THRESHOLD && !PageSignal(i.body) && kind == NoInterstitial
            && i.executionTimeMs >= 200
    then SuspiciousZeroResults
    else if ByteLength(i.body) >= THRESHOLD && !PageSignal(i.body) && kind == NoInterstitial
    then SuspiciousZeroResults
    else Legitimate
  }

  // ----- What the chain of guards amounts to -----

  /** An empty body is judged by its counters alone. */
  function EmptyVerdict(i: Inputs): Cause {
    if i.executionTimeMs == 0 && i.retries == 0 && i.concurrentFetches == 0 then InvalidResponse
    else if i.preFlightEnabled && i.preFlightFired then AntiBot
    else if i.retries == 0 && i.concurrentFetches == 0 && i.executionTimeMs >= 200 then SilentFilter
    else Legitimate
  }

  /** A body that is there is judged without looking at any counter. */
  function BodyVerdict(body: string, preFlight: bool, probeSawBlock: bool): Cause {
    if preFlight then AntiBot
    else if PageSignal(body) then Legitimate
    else if probeSawBlock && ByteLength(body) >= THRESHOLD && ShellPage(body) then GhostBlock
    else if Marker(body).Some? then AntiBot
    else if ByteLength(body) < THRESHOLD || HomePage(body) then GhostBlock
    else SuspiciousZeroResults
  }

  predicate Plain(marker: string) {
    marker != "" && marker[0] != '<'
  }

  lemma {:induction false} FirstMatchSpec(html: string, markers: seq<string>)
    ensures FirstMatch(html, markers).Some? <==> exists k :: 0 <= k < |markers| && Contains(html, markers[k])
    ensures FirstMatch(html, markers).Some? ==>
      Contains(html, FirstMatch(html, markers).value) && FirstMatch(html, markers).value in markers
  {
    hide Contains;
    if markers != [] {
      FirstMatchSpec(html, markers[1..]);
      assert forall k :: 0 <= k < |markers[1..]| ==> markers[1..][k] == markers[k + 1];
      assert markers == [markers[0]] + markers[1..];
    }
  }

  lemma MarkersArePlain()
    ensures forall m :: m in CLOUDFLARE_MARKERS || m in DDG_MARKERS ==> Plain(m)
  {
  }

  lemma MarkerIsNoSentinel(html: string)
    ensures Marker(html).Some? ==> Plain(Marker(html).value.0) && Marker(html).value.1 != NoInterstitial
  {
    hide FirstMatch, Contains;
    FirstMatchSpec(html, CLOUDFLARE_MARKERS);
    FirstMatchSpec(html, DDG_MARKERS);
    MarkersArePlain();
  }

  lemma NothingInEmpty(markers: seq<string>)
    requires forall k :: 0 <= k < |markers| ==> markers[k] != ""
    ensures FirstMatch("", markers).None?
  {
    FirstMatchSpec("", markers);
  }

  lemma EmptyHasNoSignal()
    ensures !PageSignal("") && ByteLength("") < THRESHOLD
  {
    hide FirstMatch, Contains;
    NothingInEmpty(RESULT_PAGE_SELECTORS);
  }

  /** The whole chain of guards in its normal form. */
  lemma ClassifierNormalForm(i: Inputs)
    ensures Classify(i) == if i.body == "" then EmptyVerdict(i)
                           else BodyVerdict(i.body, i.preFlightEnabled && i.preFlightFired, ProbeSawBlock(i))
  {
    hide PageSignal, Marker, ByteLength, HomePage, ShellPage, Contains, FirstMatch;
    EmptyHasNoSignal();
    MarkerIsNoSentinel(i.body);
  }

  /** A body that is there is legitimate exactly when it shows a page signal and the pre-flight check was quiet. */
  lemma LegitimateExactly(i: Inputs)
    requires i.body != ""
    ensures Classify(i).Legitimate? <==> PageSignal(i.body) && !(i.preFlightEnabled && i.preFlightFired)
  {
    ClassifierNormalForm(i);
  }

  lemma CountersMatterOnlyForEmptyBodies(i: Inputs, time: nat, retries: nat, fetches: nat)
    requires i.body != ""
    ensures Classify(i) == Classify(i.(executionTimeMs := time, retries := retries, concurrentFetches := fetches))
  {
    ClassifierNormalForm(i);
    ClassifierNormalForm(i.(executionTimeMs := time, retries := retries, concurrentFetches := fetches));
  }

  /** Two causes belong to empty bodies, and the vertical cause is never the classifier's. */
  lemma CausesOfEmptyBodies(i: Inputs)
    ensures Classify(i).SilentFilter? || Classify(i).InvalidResponse? ==> i.body == ""
    ensures !Classify(i).VerticalNoResults?
    ensures i.body == "" ==> !Classify(i).GhostBlock? && !Classify(i).SuspiciousZeroResults?
  {
    ClassifierNormalForm(i);
  }

  lemma SignalSurvivesPadding(before: string, body: string, after: string)
    requires PageSignal(body)
    ensures PageSignal(before + body + after)
  {
    hide FirstMatch, Contains;
    FirstMatchSpec(body, RESULT_PAGE_SELECTORS);
    FirstMatchSpec(before + body + after, RESULT_PAGE_SELECTORS);
    var k :| 0 <= k < |RESULT_PAGE_SELECTORS| && Contains(body, RESULT_PAGE_SELECTORS[k]);
    ContainsInPart(before, body, after, RESULT_PAGE_SELECTORS[k]);
  }

  /** Whatever surrounds a page signal, block markers included, the verdict stays. */
  lemma PaddingKeepsVerdict(i: Inputs, before: string, after: string)
    requires PageSignal(i.body)
    ensures Classify(i.(body := before + i.body + after)) == Classify(i)
  {
    hide PageSignal;
    SignalSurvivesPadding(before, i.body, after);
    EmptyHasNoSignal();
    ClassifierNormalForm(i);
    ClassifierNormalForm(i.(body := before + i.body + after));
  }

  /** A page shows a signal exactly when one of these texts occurs in it. */
  lemma PageSignalExactly(html: string)
    ensures PageSignal(html) <==>
      || Contains(html, "result__a") || Contains(html, "class=\"result\"") || Contains(html, "class='result'")
      || Contains(html, "result-link") || Contains(html, "result__title") || Contains(html, "result__snippet")
      || Contains(html, "nrn-react-div") || Contains(html, "data-testid=\"result\"")
      || Contains(html, "data-testid=\"news-vertical\"") || Contains(html, "data-testid=\"no-results-message\"")
      || Contains(html, "data-react-module-id=\"news\"") || Contains(html, "news-vertical")
      || Contains(html, "react-article") || Contains(html, "module--results") || Contains(html, "js-react-aria-results")
  {
    FirstMatchSpec(html, RESULT_PAGE_SELECTORS);
    hide Contains, FirstMatch;
    var t := RESULT_PAGE_SELECTORS;
    assert |t| == 15;
    assert t[0] == "result__a" && t[1] == "class=\"result\"" && t[2] == "class='result'" && t[3] == "result-link"
        && t[4] == "result__title" && t[5] == "result__snippet" && t[6] == "nrn-react-div"
        && t[7] == "data-testid=\"result\"" && t[8] == "data-testid=\"news-vertical\""
        && t[9] == "data-testid=\"no-results-message\"" && t[10] == "data-react-module-id=\"news\""
        && t[11] == "news-vertical" && t[12] == "react-article" && t[13] == "module--results" && t[14] == "js-react-aria-results";
  }

  /**
   * A probe is healthy exactly when its status is no error and its page, if there is one, shows a page
   * signal, or neither a marker nor fewer than 4000 bytes.
   */
  lemma HealthyExactly(body: string, httpStatus: nat)
    ensures ProbeHealthy(body, httpStatus) <==>
      httpStatus < 400 && (body == "" || PageSignal(body) || (Marker(body).None? && |Encode(body)| >= 4000))
  {
    hide PageSignal, Marker;
    MarkerIsNoSentinel(body);
  }

  /** What the detector reports when it has no marker to report. */
  lemma WithoutMarker(body: string)
    requires body == "" || PageSignal(body) || Marker(body).None?
    ensures DetectWithMatch(body).0 ==
      if body == "" then "<empty-body>"
      else if PageSignal(body) || |Encode(body)| >= 4000 then "<no-marker>" else "<ghost-block-no-marker>"
  {
    hide PageSignal, Marker;
  }

  /** An interstitial that makes a probe unhealthy also makes an empty result non-legitimate. */
  lemma UnhealthyProbeIsNonLegitimate(i: Inputs, httpStatus: nat)
    requires httpStatus < 400 && !ProbeHealthy(i.body, httpStatus)
    ensures NonLegitimate(Classify(i)) && !Classify(i).Legitimate? && !Classify(i).VerticalNoResults?
  {
    hide PageSignal, Marker, ByteLength, HomePage, ShellPage;
    ClassifierNormalForm(i);
  }

  /** A block seen by an earlier probe can only turn a verdict into a ghost block. */
  lemma ProbeLevelOnlyAddsGhosts(i: Inputs, level: Option<nat>)
    requires !ProbeSawBlock(i)
    ensures var c := Classify(i.(probeLevel := level));
      c == Classify(i) || (c.GhostBlock? && (Classify(i).AntiBot? || Classify(i).SuspiciousZeroResults?))
  {
    hide PageSignal, Marker, ByteLength, Contains;
    ClassifierNormalForm(i);
    ClassifierNormalForm(i.(probeLevel := level));
  }

  /**
   * The cross-signal: once an earlier probe has reported any block, a long page that shows the shell of
   * the search site and no page signal is a ghost block, whatever its markers; level 0 reports nothing.
   */
  lemma CrossSignal(i: Inputs)
    requires |Encode(i.body)| >= 4000 && !PageSignal(i.body) && !(i.preFlightEnabled && i.preFlightFired)
    requires exists shell :: shell in {"search_form", "DuckDuckGo", "dropdown__button", "__DDG_BV", "duckduckgo.com/?q="}
               && Contains(i.body, shell)
    ensures i.probeLevel.Some? && i.probeLevel.value >= 1 ==> Classify(i).GhostBlock?
    ensures i.probeLevel == None || i.probeLevel == Some(0) ==> Classify(i) == Classify(i.(probeLevel := None))
  {
    hide PageSignal, Marker, Contains;
    ClassifierNormalForm(i);
    ClassifierNormalForm(i.(probeLevel := None));
    assert i.body != "" by { EmptyHasNoSignal(); }
  }

  /** Without any counter against it, an empty body is a silent filter from 200 milliseconds on. */
  lemma EmptyBodyVerdicts(i: Inputs)
    requires i.body == "" && !(i.preFlightEnabled && i.preFlightFired) && i.retries == 0 && i.concurrentFetches == 0
    ensures Classify(i) == if i.executionTimeMs == 0 then InvalidResponse
                           else if i.executionTimeMs < 200 then Legitimate else SilentFilter
  {
    ClassifierNormalForm(i);
  }

  /** A short page without signal and markers is a ghost block; a long one only if it shows the home page. */
  lemma UnmarkedPages(i: Inputs)
    requires i.body != "" && !PageSignal(i.body) && Marker(i.body).None? && !(i.preFlightEnabled && i.preFlightFired)
    requires i.probeLevel.None?
    ensures |Encode(i.body)| < 4000 ==> Classify(i).GhostBlock?
    ensures |Encode(i.body)| >= 4000 ==>
      Classify(i) == if exists shell :: shell in {"search_form", "DuckDuckGo", "dropdown__button"} && Contains(i.body, shell)
                     then GhostBlock else SuspiciousZeroResults
  {
    hide PageSignal, Marker, Contains;
    ClassifierNormalForm(i);
  }

  // ----- Markers that can never be reported -----

  lemma {:induction false} EarlierMatchWins(html: string, before: seq<string>, first: string, after: seq<string>)
    requires Contains(html, first)
    ensures FirstMatch(html, before + [first] + after).Some?
    ensures FirstMatch(html, before + [first] + after).value in before + [first]
  {
    hide Contains;
    var all := before + [first] + after;
    if before == [] {
      assert all[0] == first;
    } else {
      assert all[0] == before[0] && all[1..] == before[1..] + [first] + after;
      EarlierMatchWins(html, before[1..], first, after);
    }
  }

  lemma MaskAndTitleContainModal()
    ensures Contains("anomaly-modal__mask", "anomaly-modal") && Contains("anomaly-modal__title", "anomaly-modal")
  {
    assert OccursAt("anomaly-modal__mask", "anomaly-modal", 0);
    assert OccursAt("anomaly-modal__title", "anomaly-modal", 0);
  }

  /** Two entries of the marker table are shadowed by a shorter one before them. */
  lemma ShadowedMarkers(html: string)
    ensures DetectWithMatch(html).0 != "anomaly-modal__mask" && DetectWithMatch(html).0 != "anomaly-modal__title"
  {
    hide FirstMatch, Contains, PageSignal, ByteLength;
    var m := FirstMatch(html, CLOUDFLARE_MARKERS);
    FirstMatchSpec(html, CLOUDFLARE_MARKERS);
    FirstMatchSpec(html, DDG_MARKERS);
    MaskAndTitleContainModal();
    if m == Some("anomaly-modal__mask") || m == Some("anomaly-modal__title") {
      ContainsTransitive(html, m.value, "anomaly-modal");
      assert CLOUDFLARE_MARKERS == CLOUDFLARE_MARKERS[..5] + ["anomaly-modal"] + CLOUDFLARE_MARKERS[6..];
      EarlierMatchWins(html, CLOUDFLARE_MARKERS[..5], "anomaly-modal", CLOUDFLARE_MARKERS[6..]);
      assert false;
    }
  }

  // ----- Which markers can be reported at all -----

  /** None of the first `n` entries occurs in `html`. */
  ghost predicate NoneOf(html: string, table: seq<string>, n: nat)
    requires n <= |table|
  {
    forall i :: 0 <= i < n ==> !Contains(html, table[i])
  }

  lemma {:induction false} FirstMatchAt(html: string, table: seq<string>, n: nat)
    requires n < |table| && NoneOf(html, table, n) && Contains(html, table[n])
    ensures FirstMatch(html, table) == Some(table[n])
  {
    hide Contains;
    if n > 0 {
      assert !Contains(html, table[0]);
      assert forall i :: 0 <= i < n - 1 ==> table[1..][i] == table[i + 1];
      FirstMatchAt(html, table[1..], n - 1);
    }
  }

  lemma NoMatch(html: string, table: seq<string>)
    ensures FirstMatch(html, table).None? <==> NoneOf(html, table, |table|)
  {
    hide Contains;
    FirstMatchSpec(html, table);
  }

  /** A body in which a marker is found first holds no earlier marker, so neither does the marker. */
  lemma FoundFirst(html: string, table: seq<string>, k: nat)
    requires k < |table| && table[k] !in table[..k] && FirstMatch(html, table) == Some(table[k])
    ensures NoneOf(table[k], table, k)
  {
    hide Contains, FirstMatch;
    FirstMatchSpec(html, table);
    forall i | 0 <= i < k ensures !Contains(table[k], table[i]) {
      if Contains(table[k], table[i]) {
        ContainsTransitive(html, table[k], table[i]);
        assert table == table[..i] + [table[i]] + table[i + 1..];
        EarlierMatchWins(html, table[..i], table[i], table[i + 1..]);
      }
    }
  }

  /** No page selector and no earlier entry of its table occurs in the entry. */
  ghost predicate StandsAlone(table: seq<string>, k: nat)
    requires k < |table|
  {
    NoneOf(table[k], RESULT_PAGE_SELECTORS, |RESULT_PAGE_SELECTORS|) && NoneOf(table[k], table, k)
  }

  lemma NoSelectorInside(html: string, marker: string)
    requires !PageSignal(html) && Contains(html, marker)
    ensures NoneOf(marker, RESULT_PAGE_SELECTORS, |RESULT_PAGE_SELECTORS|)
  {
    NoMatch(html, RESULT_PAGE_SELECTORS);
    hide Contains, FirstMatch;
    forall i | 0 <= i < |RESULT_PAGE_SELECTORS| ensures !Contains(marker, RESULT_PAGE_SELECTORS[i]) {
      if Contains(marker, RESULT_PAGE_SELECTORS[i]) {
        ContainsTransitive(html, marker, RESULT_PAGE_SELECTORS[i]);
      }
    }
  }

  /**
   * An entry of the Cloudflare table is reported on some body exactly when neither a page selector
   * nor an earlier entry occurs in it.
   */
  lemma CloudflareReportedExactly(k: nat)
    requires k < |CLOUDFLARE_MARKERS| && CLOUDFLARE_MARKERS[k] !in CLOUDFLARE_MARKERS[..k]
    ensures (exists html :: DetectWithMatch(html) == (CLOUDFLARE_MARKERS[k], Cloudflare))
       <==> StandsAlone(CLOUDFLARE_MARKERS, k)
  {
    var m := CLOUDFLARE_MARKERS[k];
    MarkersArePlain();
    assert m in CLOUDFLARE_MARKERS && Plain(m);
    hide Contains, FirstMatch, ByteLength, NoneOf;
    if html :| DetectWithMatch(html) == (m, Cloudflare) {
      FirstMatchSpec(html, CLOUDFLARE_MARKERS);
      FoundFirst(html, CLOUDFLARE_MARKERS, k);
      NoSelectorInside(html, m);
    }
    if StandsAlone(CLOUDFLARE_MARKERS, k) {
      ContainsItself(m);
      NoMatch(m, RESULT_PAGE_SELECTORS);
      FirstMatchAt(m, CLOUDFLARE_MARKERS, k);
      assert DetectWithMatch(m) == (m, Cloudflare);
    }
  }

  lemma DuckDuckGoFound(html: string, k: nat)
    requires k < |DDG_MARKERS| && DDG_MARKERS[k] !in DDG_MARKERS[..k]
    requires DetectWithMatch(html) == (DDG_MARKERS[k], DuckDuckGo)
    ensures StandsAlone(DDG_MARKERS, k) && NoneOf(DDG_MARKERS[k], CLOUDFLARE_MARKERS, |CLOUDFLARE_MARKERS|)
  {
    assert !PageSignal(html) && FirstMatch(html, CLOUDFLARE_MARKERS).None? && FirstMatch(html, DDG_MARKERS) == Some(DDG_MARKERS[k]);
    hide Contains, FirstMatch, NoneOf, PageSignal, DetectWithMatch;
    FirstMatchSpec(html, DDG_MARKERS);
    FoundFirst(html, DDG_MARKERS, k);
    NoSelectorInside(html, DDG_MARKERS[k]);
    NoEntryInside(html, DDG_MARKERS[k]);
  }

  lemma DuckDuckGoAlone(k: nat)
    requires k < |DDG_MARKERS|
    requires StandsAlone(DDG_MARKERS, k) && NoneOf(DDG_MARKERS[k], CLOUDFLARE_MARKERS, |CLOUDFLARE_MARKERS|)
    ensures DetectWithMatch(DDG_MARKERS[k]) == (DDG_MARKERS[k], DuckDuckGo)
  {
    var m := DDG_MARKERS[k];
    MarkersArePlain();
    assert m in DDG_MARKERS && Plain(m);
    hide Contains, FirstMatch, ByteLength, NoneOf;
    ContainsItself(m);
    NoMatch(m, RESULT_PAGE_SELECTORS);
    NoMatch(m, CLOUDFLARE_MARKERS);
    FirstMatchAt(m, DDG_MARKERS, k);
  }

  /** An entry of the other table must also hold no Cloudflare marker. */
  lemma DuckDuckGoReportedExactly(k: nat)
    requires k < |DDG_MARKERS| && DDG_MARKERS[k] !in DDG_MARKERS[..k]
    ensures (exists html :: DetectWithMatch(html) == (DDG_MARKERS[k], DuckDuckGo))
       <==> StandsAlone(DDG_MARKERS, k) && NoneOf(DDG_MARKERS[k], CLOUDFLARE_MARKERS, |CLOUDFLARE_MARKERS|)
  {
    hide DetectWithMatch, StandsAlone, NoneOf;
    if html :| DetectWithMatch(html) == (DDG_MARKERS[k], DuckDuckGo) {
      DuckDuckGoFound(html, k);
    }
    if StandsAlone(DDG_MARKERS, k) && NoneOf(DDG_MARKERS[k], CLOUDFLARE_MARKERS, |CLOUDFLARE_MARKERS|) {
      DuckDuckGoAlone(k);
    }
  }

  lemma NoEntryInside(html: string, marker: string)
    requires FirstMatch(html, CLOUDFLARE_MARKERS).None? && Contains(html, marker)
    ensures NoneOf(marker, CLOUDFLARE_MARKERS, |CLOUDFLARE_MARKERS|)
  {
    NoMatch(html, CLOUDFLARE_MARKERS);
    hide Contains, FirstMatch;
    forall i | 0 <= i < |CLOUDFLARE_MARKERS| ensures !Contains(marker, CLOUDFLARE_MARKERS[i]) {
      if Contains(marker, CLOUDFLARE_MARKERS[i]) {
        ContainsTransitive(html, marker, CLOUDFLARE_MARKERS[i]);
      }
    }
  }
}
