/**
 * The user agent a Chrome process announces, and the one its results report: both are coerced to the
 * host and then given a major version, though not always the same one.
 */
module UserAgent {
  import opened Common

  datatype Host = WindowsHost | MacHost | LinuxHost

  const CHROME := "Chrome/"

  /** The major version a launch assumes when the browser reports none. */
  const FALLBACK_MAJOR: nat := 146

  const ENGINE := ") AppleWebKit/537.36 (KHTML, like Gecko) "
  const CHROME_TAIL := ".0.0.0 Safari/537.36"
  const EDGE_TAIL := ".0.0.0 Safari/537.36 Edg/145.0.3800.97"

  /** The platform token of the catalog's Chrome entry for a host, and the rest of its platform part. */
  function PlatformToken(host: Host): string {
    match host case WindowsHost => "Windows NT" case MacHost => "Macintosh" case LinuxHost => "X11; Linux"
  }

  function PlatformRest(host: Host): string {
    match host case WindowsHost => " 10.0; Win64; x64" case MacHost => "; Intel Mac OS X 10_15_7" case LinuxHost => " x86_64"
  }

  /** A Chromium entry of the catalog, up to what follows `Chrome/`. */
  function ChromiumUa(host: Host, version: string): string {
    "Mozilla/5.0 (" + PlatformToken(host) + PlatformRest(host) + ENGINE + CHROME + version
  }

  function ChromeUa(host: Host): string {
    ChromiumUa(host, "146" + CHROME_TAIL)
  }

  function EdgeUa(host: Host): string {
    ChromiumUa(host, "145" + EDGE_TAIL)
  }

  // ----- The major version -----

  /** `str::find`: the first occurrence at or after `from`. */
  function Find(s: string, needle: string, from: nat): (r: Option<nat>)
    requires from <= |s|
    ensures r.Some? ==> from <= r.value && OccursAt(s, needle, r.value)
    ensures r.Some? ==> forall j :: from <= j < r.value ==> !OccursAt(s, needle, j)
    ensures r.None? ==> forall j :: from <= j <= |s| ==> !OccursAt(s, needle, j)
    decreases |s| - from
  {
    if OccursAt(s, needle, from) then Some(from)
    else if from == |s| then None
    else Find(s, needle, from + 1)
  }

  /** Where the run of digits that begins at `from` ends. */
  function DigitsEnd(s: string, from: nat): (e: nat)
    requires from <= |s|
    ensures from <= e <= |s|
    ensures forall j :: from <= j < e ==> IsAsciiDigit(s[j])
    ensures e < |s| ==> !IsAsciiDigit(s[e])
    decreases |s| - from
  {
    if from < |s| && IsAsciiDigit(s[from]) then DigitsEnd(s, from + 1) else from
  }

  function Decimal(n: nat): (s: string)
    ensures s != "" && forall j :: 0 <= j < |s| ==> IsAsciiDigit(s[j])
  {
    var digit := [(n % 10) as char + '0'];
    if n < 10 then digit else Decimal(n / 10) + digit
  }

  function Rewritten(ua: string, major: nat): string {
    match Find(ua, CHROME, 0)
    case None => ua
    case Some(i) => ua[..i + 7] + Decimal(major) + ua[DigitsEnd(ua, i + 7)..]
  }

  lemma FoundFits(s: string, needle: string, from: nat)
    requires from <= |s|
    ensures Find(s, needle, from).Some? ==> Find(s, needle, from).value + |needle| <= |s|
  {
  }

  lemma FindIs(s: string, needle: string, from: nat, i: nat)
    requires from <= i && OccursAt(s, needle, i) && forall j :: from <= j < i ==> !OccursAt(s, needle, j)
    ensures Find(s, needle, from) == Some(i)
  {
    var r := Find(s, needle, from);
  }

  lemma DigitsEndIs(s: string, from: nat, e: nat)
    requires from <= e <= |s| && forall j :: from <= j < e ==> IsAsciiDigit(s[j])
    requires e == |s| || !IsAsciiDigit(s[e])
    ensures DigitsEnd(s, from) == e
  {
    var d := DigitsEnd(s, from);
  }

  /** The rewritten text announces `Chrome/` where the original did, followed by exactly the new number. */
  lemma RewrittenShape(ua: string, major: nat)
    requires Find(ua, CHROME, 0).Some?
    ensures var i := Find(ua, CHROME, 0).value; var out := Rewritten(ua, major);
      && Find(out, CHROME, 0) == Some(i)
      && i + 7 <= |ua|
      && DigitsEnd(out, i + 7) == i + 7 + |Decimal(major)|
      && i + 7 + |Decimal(major)| <= |out|
      && out[..i + 7] == ua[..i + 7]
      && out[i + 7..i + 7 + |Decimal(major)|] == Decimal(major)
      && out[i + 7 + |Decimal(major)|..] == ua[DigitsEnd(ua, i + 7)..]
  {
    hide Decimal;
    var i, out, d := Find(ua, CHROME, 0).value, Rewritten(ua, major), Decimal(major);
    assert OccursAt(ua, CHROME, i);
    assert out[..i + 7] == ua[..i + 7];
    forall j | 0 <= j < i ensures !OccursAt(out, CHROME, j) {
      assert out[j..j + 7] == ua[j..j + 7];
      assert !OccursAt(ua, CHROME, j);
    }
    assert out[i..i + 7] == ua[i..i + 7];
    assert OccursAt(out, CHROME, i);
    FindIs(out, CHROME, 0, i);
    DigitsEndIs(out, i + 7, i + 7 + |d|);
  }

  /** The version behind the first `Chrome/` is replaced; without one the text is returned as it is. */
  method RewriteUaChromeVersion(ua: string, major: nat) returns (out: string)
    ensures out == Rewritten(ua, major)
    ensures Find(ua, CHROME, 0).None? ==> out == ua
    ensures Find(ua, CHROME, 0).Some? ==>
      var i := Find(ua, CHROME, 0).value; var d := |Decimal(major)|;
      && Find(out, CHROME, 0) == Some(i) && i + 7 <= |ua| && i + 7 + d <= |out|
      && out[..i + 7] == ua[..i + 7] && out[i + 7..i + 7 + d] == Decimal(major)
      && DigitsEnd(out, i + 7) == i + 7 + d
      && out[i + 7 + d..] == ua[DigitsEnd(ua, i + 7)..]
  {
    hide Decimal, OccursAt;
    var found := Find(ua, CHROME, 0);
    if found.None? {
      return ua;
    }
    var start := found.value + |CHROME|;
    FoundFits(ua, CHROME, 0);
    var digitsEnd := DigitsEnd(ua, start);
    out := "";
    out := out + ua[..start];
    assert out == ua[..start];
    out := out + Decimal(major);
    out := out + ua[digitsEnd..];
    RewrittenShape(ua, major);
  }

  /** The last rewrite wins. */
  lemma LastRewriteWins(ua: string, m: nat, n: nat)
    ensures Rewritten(Rewritten(ua, m), n) == Rewritten(ua, n)
  {
    hide Decimal, OccursAt;
    if Find(ua, CHROME, 0).Some? {
      RewrittenShape(ua, m);
    }
  }

  // ----- What a rewrite cannot touch -----

  /** A text without a leading digit and without a slash before its last character. */
  predicate Untouchable(token: string) {
    token != "" && !IsAsciiDigit(token[0]) && forall j :: 0 <= j < |token| - 1 ==> token[j] != '/'
  }

  lemma BehindDigits(pre: string, digits: string, post: string, token: string, j: nat)
    requires j <= |post|
    ensures OccursAt(pre + digits + post, token, |pre| + |digits| + j) <==> OccursAt(post, token, j)
  {
    var s, k := pre + digits + post, |pre| + |digits|;
    assert s[k..] == post;
    if j + |token| <= |post| {
      assert s[k + j..k + j + |token|] == s[k..][j..j + |token|];
    }
  }

  /** Such a token cannot overlap the digits after a slash, so it survives when they are replaced. */
  lemma TokenMoves(pre: string, a: string, b: string, post: string, token: string)
    requires Untouchable(token) && pre != "" && pre[|pre| - 1] == '/'
    requires forall j :: 0 <= j < |a| ==> IsAsciiDigit(a[j])
    requires Contains(pre + a + post, token)
    ensures Contains(pre + b + post, token)
  {
    var s, t, n := pre + a + post, pre + b + post, |token|;
    var i: nat :| i <= |s| && OccursAt(s, token, i);
    if i + n <= |pre| {
      assert t[i..i + n] == s[i..i + n];
      assert OccursAt(t, token, i);
    } else if i < |pre| {
      CharacterOf(s, token, i, |pre| - 1);
    } else if i < |pre| + |a| {
      CharacterOf(s, token, i, i);
    } else {
      var k, j := i - |a| + |b|, i - |pre| - |a|;
      BehindDigits(pre, a, post, token, j);
      BehindDigits(pre, b, post, token, j);
      assert OccursAt(t, token, k);
    }
  }

  lemma RewriteKeepsTokens(ua: string, major: nat, token: string)
    requires Untouchable(token)
    ensures Contains(Rewritten(ua, major), token) <==> Contains(ua, token)
  {
    hide Decimal, Contains, Untouchable;
    var found := Find(ua, CHROME, 0);
    if found.Some? {
      var start := found.value + 7;
      CharacterOf(ua, CHROME, found.value, found.value + 6);
      assert ua[start - 1] == '/';
      var e := DigitsEnd(ua, start);
      var pre, a, b, post := ua[..start], ua[start..e], Decimal(major), ua[e..];
      assert ua == pre + a + post;
      assert Rewritten(ua, major) == pre + b + post;
      if Contains(ua, token) {
        TokenMoves(pre, a, b, post, token);
      }
      if Contains(Rewritten(ua, major), token) {
        TokenMoves(pre, b, a, post, token);
      }
    }
  }

  // ----- Coercion -----

  predicate MatchesHost(ua: string, host: Host) {
    match host
    case WindowsHost => Contains(ua, "Windows NT")
    case MacHost => Contains(ua, "Macintosh") || Contains(ua, "Mac OS X")
    case LinuxHost => Contains(ua, "X11; Linux") || Contains(ua, "Linux x86_64")
  }

  predicate ForeignFamily(ua: string) {
    Contains(ua, "Firefox/") || (Contains(ua, "Safari/") && !Contains(ua, CHROME))
  }

  function Coerced(candidate: string, host: Host): string {
    if ForeignFamily(candidate) then ChromeUa(host)
    else if !MatchesHost(candidate, host) then ChromeUa(host)
    else candidate
  }

  /** Coercion, then the major version when the browser reported one. */
  function Resolved(candidate: string, host: Host, major: Option<nat>): string {
    match major
    case Some(m) => Rewritten(Coerced(candidate, host), m)
    case None => Coerced(candidate, host)
  }

  predicate Acceptable(ua: string, host: Host) {
    !ForeignFamily(ua) && MatchesHost(ua, host)
  }

  lemma NoInitialNoNeedle(s: string, needle: string)
    requires needle != "" && needle[0] !in s
    ensures !Contains(s, needle)
  {
    forall i: nat | i <= |s| ensures !OccursAt(s, needle, i) {
      if OccursAt(s, needle, i) {
        CharacterOf(s, needle, i, i);
      }
    }
  }

  lemma NotInConcat(a: string, b: string, c: char)
    ensures c in a + b <==> c in a || c in b
  {
  }

  /** The parts before the version hold neither the first letter of `Firefox` nor that of `Chrome`. */
  lemma EngineIsFree(c: char)
    requires c == 'F' || c == 'C'
    ensures c !in ENGINE
  {
  }

  lemma BeginningIsFree(c: char)
    requires c == 'F' || c == 'C'
    ensures c !in "Mozilla/5.0 ("
  {
  }

  lemma PlatformTokenIsFree(host: Host, c: char)
    requires c == 'F' || c == 'C'
    ensures c !in PlatformToken(host)
  {
    match host
    case WindowsHost =>
    case MacHost =>
    case LinuxHost =>
  }

  lemma PlatformRestIsFree(host: Host, c: char)
    requires c == 'F' || c == 'C'
    ensures c !in PlatformRest(host)
  {
    match host
    case WindowsHost =>
    case MacHost =>
    case LinuxHost =>
  }

  /** Everything before `Chrome/`. */
  function Front(host: Host): string {
    "Mozilla/5.0 (" + PlatformToken(host) + PlatformRest(host) + ENGINE
  }

  lemma FrontIsFree(host: Host, c: char)
    requires c == 'F' || c == 'C'
    ensures c !in Front(host)
  {
    BeginningIsFree(c);
    EngineIsFree(c);
    PlatformTokenIsFree(host, c);
    PlatformRestIsFree(host, c);
    hide PlatformToken, PlatformRest;
    var a, b := "Mozilla/5.0 (" + PlatformToken(host), PlatformRest(host);
    NotInConcat("Mozilla/5.0 (", PlatformToken(host), c);
    NotInConcat(a, b, c);
    NotInConcat(a + b, ENGINE, c);
  }

  lemma NoFirefox(host: Host, version: string)
    requires 'F' !in version
    ensures !Contains(ChromiumUa(host, version), "Firefox/")
  {
    hide Contains, PlatformToken, PlatformRest;
    FrontIsFree(host, 'F');
    assert 'F' !in CHROME;
    NotInConcat(Front(host), CHROME, 'F');
    NotInConcat(Front(host) + CHROME, version, 'F');
    NoInitialNoNeedle(ChromiumUa(host, version), "Firefox/");
  }

  lemma NamesHostAndChrome(host: Host, version: string)
    ensures MatchesHost(ChromiumUa(host, version), host) && Contains(ChromiumUa(host, version), CHROME)
  {
    hide Contains, PlatformRest;
    var ua, token, rest := ChromiumUa(host, version), PlatformToken(host), PlatformRest(host);
    ContainsItself(token);
    assert ua == "Mozilla/5.0 (" + token + (rest + ENGINE + CHROME + version);
    ContainsInPart("Mozilla/5.0 (", token, rest + ENGINE + CHROME + version, token);
    ContainsItself(CHROME);
    ContainsInPart("Mozilla/5.0 (" + token + rest + ENGINE, CHROME, version, CHROME);
  }

  lemma ChromiumUaIsAcceptable(host: Host, version: string)
    requires 'F' !in version
    ensures Acceptable(ChromiumUa(host, version), host) && Contains(ChromiumUa(host, version), CHROME)
  {
    hide Contains, ChromiumUa, MatchesHost;
    NoFirefox(host, version);
    NamesHostAndChrome(host, version);
  }

  lemma VersionsAreFree()
    ensures 'F' !in "146" + CHROME_TAIL && 'F' !in "145" + EDGE_TAIL
  {
    assert 'F' !in CHROME_TAIL && 'F' !in EDGE_TAIL;
    NotInConcat("146", CHROME_TAIL, 'F');
    NotInConcat("145", EDGE_TAIL, 'F');
  }

  lemma CatalogUaIsAcceptable(host: Host)
    ensures Acceptable(ChromeUa(host), host) && Contains(ChromeUa(host), CHROME)
    ensures Acceptable(EdgeUa(host), host)
  {
    VersionsAreFree();
    hide Contains, ChromiumUa, MatchesHost;
    ChromiumUaIsAcceptable(host, "146" + CHROME_TAIL);
    ChromiumUaIsAcceptable(host, "145" + EDGE_TAIL);
  }

  lemma TokensAreUntouchable()
    ensures Untouchable("Firefox/") && Untouchable("Safari/") && Untouchable(CHROME) && Untouchable("Windows NT")
    ensures Untouchable("Macintosh") && Untouchable("Mac OS X") && Untouchable("X11; Linux") && Untouchable("Linux x86_64")
  {
  }

  /** No rewrite of the version can change what coercion thinks of a user agent. */
  lemma RewriteKeepsAcceptance(ua: string, major: nat, host: Host)
    ensures Acceptable(Rewritten(ua, major), host) <==> Acceptable(ua, host)
    ensures Contains(Rewritten(ua, major), CHROME) <==> Contains(ua, CHROME)
  {
    hide Rewritten, Contains, Untouchable;
    TokensAreUntouchable();
    RewriteKeepsTokens(ua, major, "Firefox/");
    RewriteKeepsTokens(ua, major, "Safari/");
    RewriteKeepsTokens(ua, major, CHROME);
    match host
    case WindowsHost => RewriteKeepsTokens(ua, major, "Windows NT");
    case MacHost =>
      RewriteKeepsTokens(ua, major, "Macintosh");
      RewriteKeepsTokens(ua, major, "Mac OS X");
    case LinuxHost =>
      RewriteKeepsTokens(ua, major, "X11; Linux");
      RewriteKeepsTokens(ua, major, "Linux x86_64");
  }

  /** Nothing a Chromium process could not be comes out of coercion, and it is its own fixed point. */
  lemma CoercionSettles(candidate: string, host: Host)
    ensures Acceptable(Coerced(candidate, host), host)
    ensures Coerced(Coerced(candidate, host), host) == Coerced(candidate, host)
    ensures Coerced(candidate, host) == candidate <==> Acceptable(candidate, host) || candidate == ChromeUa(host)
  {
    hide Contains, ChromeUa;
    CatalogUaIsAcceptable(host);
  }

  /** What a user agent of each platform may name. */
  function HostTokens(host: Host): set<string> {
    match host
    case WindowsHost => {"Windows NT"}
    case MacHost => {"Macintosh", "Mac OS X"}
    case LinuxHost => {"X11; Linux", "Linux x86_64"}
  }

  /**
   * A candidate goes to Chrome as it is exactly when it names the host by one of its tokens, no Firefox,
   * and no Safari without Chrome; any other becomes the catalog's Chrome entry, which names Chrome.
   */
  lemma KeptExactly(candidate: string, host: Host)
    ensures var fits := (exists t :: t in HostTokens(host) && Contains(candidate, t)) && !Contains(candidate, "Firefox/")
                        && (Contains(candidate, "Safari/") ==> Contains(candidate, "Chrome/"));
            Coerced(candidate, host) == if fits then candidate else ChromeUa(host)
  {
    hide Contains, ChromeUa;
    var tokens := HostTokens(host);
    match host
    case WindowsHost => assert "Windows NT" in tokens;
    case MacHost => assert "Macintosh" in tokens && "Mac OS X" in tokens;
    case LinuxHost => assert "X11; Linux" in tokens && "Linux x86_64" in tokens;
  }

  /** Resolving an already resolved identity only replaces the version. */
  lemma ResolutionSettles(candidate: string, host: Host, m: Option<nat>, n: nat)
    ensures Resolved(Resolved(candidate, host, m), host, Some(n)) == Resolved(candidate, host, Some(n))
    ensures Resolved(Resolved(candidate, host, m), host, m) == Resolved(candidate, host, m)
    ensures Acceptable(Resolved(candidate, host, m), host)
  {
    hide Contains, ChromeUa, Rewritten, ForeignFamily, MatchesHost;
    CoercionSettles(candidate, host);
    if m.Some? {
      RewriteKeepsAcceptance(Coerced(candidate, host), m.value, host);
      LastRewriteWins(Coerced(candidate, host), m.value, n);
      LastRewriteWins(Coerced(candidate, host), m.value, m.value);
    }
  }

  /**
   * The one kind of user agent that reaches Chrome without naming it: no browser token at all, but
   * the platform of the host.
   */
  lemma ChromeIsNamedExactly(candidate: string, host: Host, m: Option<nat>)
    ensures Contains(Resolved(candidate, host, m), CHROME)
       <==> Contains(candidate, CHROME) || !Acceptable(candidate, host)
  {
    hide Contains, ChromeUa, Rewritten, ForeignFamily, MatchesHost;
    CatalogUaIsAcceptable(host);
    if m.Some? {
      RewriteKeepsAcceptance(Coerced(candidate, host), m.value, host);
    }
  }

  // ----- What is launched and what is reported -----

  /** The version named behind `Chrome/`, if it is named. */
  function VersionDigits(ua: string): Option<string> {
    match Find(ua, CHROME, 0)
    case None => None
    case Some(i) => Some(ua[i + 7..DigitsEnd(ua, i + 7)])
  }

  function MajorOr(major: Option<nat>): nat {
    if major.Some? then major.value else FALLBACK_MAJOR
  }

  /**
   * The user agent handed to the process: the pipeline resolves with the major it has probed, the
   * session coerces once more, and the launch probes again.
   */
  function Launched(candidate: string, host: Host, reported: Option<nat>, probed: Option<nat>): string {
    Rewritten(Coerced(Resolved(candidate, host, reported), host), MajorOr(probed))
  }

  lemma FindFindsContained(s: string, needle: string)
    ensures Find(s, needle, 0).Some? <==> Contains(s, needle)
  {
    var r := Find(s, needle, 0);
    if r.Some? {
      assert OccursAt(s, needle, r.value);
    }
  }

  lemma RewrittenDigits(ua: string, major: nat)
    ensures VersionDigits(Rewritten(ua, major)) == if VersionDigits(ua).Some? then Some(Decimal(major)) else None
  {
    hide Decimal, OccursAt;
    if Find(ua, CHROME, 0).Some? {
      RewrittenShape(ua, major);
    }
  }

  /** A rewrite changes nothing exactly when there is no version or it is the new one already. */
  lemma RewriteChangesNothingExactly(ua: string, major: nat)
    ensures Rewritten(ua, major) == ua <==> VersionDigits(ua) == None || VersionDigits(ua) == Some(Decimal(major))
  {
    hide Decimal, OccursAt;
    RewrittenDigits(ua, major);
    var found := Find(ua, CHROME, 0);
    if found.Some? {
      var start := found.value + 7;
      assert OccursAt(ua, CHROME, found.value) ==> start <= |ua| by { FoundFits(ua, CHROME, 0); }
      assert ua == ua[..start] + ua[start..DigitsEnd(ua, start)] + ua[DigitsEnd(ua, start)..];
    }
  }

  lemma {:induction false} DecimalInjective(a: nat, b: nat)
    requires Decimal(a) == Decimal(b)
    ensures a == b
  {
    var s, t := Decimal(a), Decimal(b);
    assert s[|s| - 1] == (a % 10) as char + '0' && t[|t| - 1] == (b % 10) as char + '0';
    assert a % 10 == b % 10;
    if a >= 10 && b >= 10 {
      assert s[..|s| - 1] == Decimal(a / 10) && t[..|t| - 1] == Decimal(b / 10);
      DecimalInjective(a / 10, b / 10);
    }
  }

  /**
   * What is launched is what is reported if and only if Chrome is not named, or the launch rewrites to
   * the version that is reported: the probed one if the probe succeeded before, else the one the
   * candidate came with.
   */
  lemma LaunchIsReportedExactly(candidate: string, host: Host, reported: Option<nat>, probed: Option<nat>)
    ensures Launched(candidate, host, reported, probed) == Resolved(candidate, host, reported)
       <==> (!Contains(Coerced(candidate, host), CHROME)
             || (if reported.Some? then reported.value == MajorOr(probed)
                 else VersionDigits(Coerced(candidate, host)) == Some(Decimal(MajorOr(probed)))))
  {
    var c, k := Coerced(candidate, host), MajorOr(probed);
    ResolvedStaysCoerced(candidate, host, reported);
    hide Contains, ChromeUa, Rewritten, ForeignFamily, MatchesHost, Decimal, Coerced, OccursAt;
    FindFindsContained(c, CHROME);
    RewriteChangesNothingExactly(Resolved(candidate, host, reported), k);
    if reported.Some? {
      RewrittenDigits(c, reported.value);
      if Decimal(reported.value) == Decimal(k) {
        DecimalInjective(reported.value, k);
      }
    }
  }

  lemma ResolvedStaysCoerced(candidate: string, host: Host, major: Option<nat>)
    ensures Coerced(Resolved(candidate, host, major), host) == Resolved(candidate, host, major)
  {
    hide Contains, ChromeUa, Rewritten, ForeignFamily, MatchesHost;
    ResolutionSettles(candidate, host, major, 0);
  }

  /** Both probes share one cache, so they agree; then only an unknown major can part the two. */
  lemma KnownMajorIsReported(candidate: string, host: Host, major: Option<nat>)
    ensures Launched(candidate, host, major, major) == Resolved(candidate, host, major)
       <==> (major.Some? || !Contains(Coerced(candidate, host), CHROME)
             || VersionDigits(Coerced(candidate, host)) == Some(Decimal(FALLBACK_MAJOR)))
  {
    hide Contains, ChromeUa, Rewritten, Coerced, Decimal;
    LaunchIsReportedExactly(candidate, host, major, major);
  }

  lemma DigitsBehindFront(front: string, digits: string, tail: string)
    requires 'C' !in front
    requires (forall j :: 0 <= j < |digits| ==> IsAsciiDigit(digits[j])) && tail != "" && !IsAsciiDigit(tail[0])
    ensures VersionDigits(front + CHROME + (digits + tail)) == Some(digits)
  {
    hide VersionDigits, Find, DigitsEnd, OccursAt;
    var ua, n, e := front + CHROME + (digits + tail), |front|, |digits|;
    forall j | 0 <= j < n ensures !OccursAt(ua, CHROME, j) {
      assert ua[j] == front[j] && front[j] in front;
      if OccursAt(ua, CHROME, j) {
        CharacterOf(ua, CHROME, j, j);
        assert false;
      }
    }
    NamedAt(front, digits + tail);
    FindIs(ua, CHROME, 0, n);
    assert forall j :: 0 <= j < e ==> ua[n + 7 + j] == digits[j];
    assert ua[n + 7 + e] == tail[0];
    DigitsEndIs(ua, n + 7, n + 7 + e);
    assert ua[n + 7..n + 7 + e] == digits;
    DigitsAt(ua, n, n + 7 + e);
  }

  lemma NamedAt(front: string, version: string)
    ensures OccursAt(front + CHROME + version, CHROME, |front|)
  {
  }

  lemma DigitsAt(ua: string, i: nat, e: nat)
    requires i + 7 <= e <= |ua| && Find(ua, CHROME, 0) == Some(i) && DigitsEnd(ua, i + 7) == e
    ensures VersionDigits(ua) == Some(ua[i + 7..e])
  {
  }

  lemma FallbackDigits()
    ensures Decimal(FALLBACK_MAJOR) == "146"
  {
    assert Decimal(1) == "1";
    assert Decimal(14) == "14";
  }

  lemma EdgeDigits(host: Host)
    ensures VersionDigits(EdgeUa(host)) == Some("145")
  {
    FrontIsFree(host, 'C');
    var front := Front(host);
    assert EdgeUa(host) == front + CHROME + ("145" + EDGE_TAIL);
    hide VersionDigits, Front, EdgeUa, ChromiumUa;
    DigitsBehindFront(front, "145", EDGE_TAIL);
  }

  lemma ChromeDigits(host: Host)
    ensures VersionDigits(ChromeUa(host)) == Some("146")
  {
    FrontIsFree(host, 'C');
    var front := Front(host);
    assert ChromeUa(host) == front + CHROME + ("146" + CHROME_TAIL);
    hide VersionDigits, Front, ChromeUa, ChromiumUa;
    DigitsBehindFront(front, "146", CHROME_TAIL);
  }

  /** A candidate that is replaced is always reported as it is launched when no major is known. */
  lemma ReplacedIsReported(candidate: string, host: Host)
    requires !Acceptable(candidate, host)
    ensures Launched(candidate, host, None, None) == Resolved(candidate, host, None)
  {
    KnownMajorIsReported(candidate, host, None);
    ChromeDigits(host);
    FallbackDigits();
    hide ChromeUa, VersionDigits, Decimal, Contains;
    assert Coerced(candidate, host) == ChromeUa(host);
  }

  /** With an unknown major the catalog's Edge entry is reported as 145 and launched as 146. */
  lemma EdgeIsMisreported(host: Host)
    ensures VersionDigits(Resolved(EdgeUa(host), host, None)) == Some("145")
    ensures VersionDigits(Launched(EdgeUa(host), host, None, None)) == Some("146")
  {
    CatalogUaIsAcceptable(host);
    EdgeDigits(host);
    FallbackDigits();
    hide Contains, EdgeUa, Rewritten, MatchesHost, ForeignFamily, Decimal, VersionDigits;
    RewrittenDigits(EdgeUa(host), FALLBACK_MAJOR);
  }

  /** If Chrome is named at all, the process announces exactly the major version it was probed for, or 146. */
  lemma AnnouncesTheInstalledMajor(candidate: string, host: Host, reported: Option<nat>, probed: Option<nat>)
    requires Contains(candidate, CHROME) || !Acceptable(candidate, host)
    ensures VersionDigits(Launched(candidate, host, reported, probed)) == Some(Decimal(MajorOr(probed)))
    ensures reported.Some? ==> VersionDigits(Resolved(candidate, host, reported)) == Some(Decimal(reported.value))
  {
    ResolvedStaysCoerced(candidate, host, reported);
    hide Contains, ChromeUa, Rewritten, ForeignFamily, MatchesHost, Decimal, OccursAt, Coerced;
    ChromeIsNamedExactly(candidate, host, reported);
    ChromeIsNamedExactly(candidate, host, None);
    FindFindsContained(Resolved(candidate, host, reported), CHROME);
    FindFindsContained(Coerced(candidate, host), CHROME);
    RewrittenDigits(Resolved(candidate, host, reported), MajorOr(probed));
    if reported.Some? {
      RewrittenDigits(Coerced(candidate, host), reported.value);
    }
  }
}
