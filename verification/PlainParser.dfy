/**
 * A parser small enough to write down that obeys the laws asked of the library: the results about
 * canonical forms are about something. It turns down some hosts, escapes queries and rewrites drives in
 * either way the Standard has had it. It also supplies the concrete URLs on which a second
 * canonicalisation changes the first.
 */
module PlainParser {
  import opened Common
  import opened Utf8
  import opened FormUrlencoded
  import opened UrlPath
  import opened CanonicalUrl
  import opened CanonicalUrlLaws

  /** Some of the characters no host may contain. */
  predicate IsForbidden(c: char) {
    c in " <>^|"
  }

  predicate IsPlainHost(host: string) {
    forall c :: c in host ==> !IsForbidden(c)
  }

  /** No user information, no port, and a host that is accepted. */
  predicate IsPlain(u: Url) {
    && WellFormed(u) && u.authority.value.userinfo == "" && u.authority.value.port == ""
    && IsPlainHost(u.authority.value.host)
  }

  // ----- What parsing changes -----

  /** `http` and `https` URLs have a path. */
  function Rooted(u: Url): Url {
    if IsWeb(u.scheme) && u.path == "" then u.(path := "/") else u
  }

  function EscapeChar(c: char): string {
    if c == ' ' then "%20" else if c == '"' then "%22" else if c == '<' then "%3C" else if c == '>' then "%3E" else [c]
  }

  predicate IsEscaped(q: string) {
    forall c :: c in q ==> EscapeChar(c) == [c]
  }

  function Escaped(q: string): string {
    if q == "" then "" else EscapeChar(q[0]) + Escaped(q[1..])
  }

  lemma EscapeCharIsEscaped(c: char)
    ensures IsEscaped(EscapeChar(c)) && (c != '#' ==> '#' !in EscapeChar(c))
  {
  }

  lemma {:induction false} EscapedIsEscaped(q: string)
    ensures IsEscaped(Escaped(q)) && ('#' !in q ==> '#' !in Escaped(q))
  {
    hide EscapeChar;
    if q != "" {
      EscapeCharIsEscaped(q[0]);
      EscapedIsEscaped(q[1..]);
    }
  }

  lemma {:induction false} EscapedIsKept(q: string)
    requires IsEscaped(q)
    ensures Escaped(q) == q
  {
    hide EscapeChar;
    if q != "" {
      assert EscapeChar(q[0]) == [q[0]];
      EscapedIsKept(q[1..]);
    }
  }

  function EscapedQuery(u: Url): Url {
    if u.query.Some? then u.(query := Some(Escaped(u.query.value))) else u
  }

  /** The drive rule of `file` URLs: a bar behind the letter becomes a colon, and the host may go. */
  function Driven(drops: bool, u: Url): Url {
    if u.scheme == "file" && (StartsWithDrive(u.path, '|') || StartsWithDrive(u.path, ':'))
    then u.(path := u.path[2 := ':'], authority := if drops then Some(Authority("", "", "")) else u.authority)
    else u
  }

  function Normalised(drops: bool, u: Url): Url {
    Driven(drops, EscapedQuery(Rooted(u)))
  }

  // ----- Splitting -----

  function SplitRest(scheme: string, rest: string): Url {
    var hash := IndexOf(rest, '#');
    var ask := IndexOf(rest[..hash], '?');
    var slash := IndexOf(rest[..ask], '/');
    Url(scheme, Some(Authority("", rest[..slash], "")), rest[slash..ask],
        if ask < hash then Some(rest[ask + 1..hash]) else None,
        if hash < |rest| then Some(rest[hash + 1..]) else None)
  }

  /** `scheme://host[/path][?query][#fragment]`, with no dots resolved and nothing else decoded. */
  function SplitUrl(drops: bool, raw: string): Option<Url> {
    var mark := FindMark(raw);
    if mark == |raw| then None
    else
      var u := SplitRest(raw[..mark], raw[mark + 3..]);
      if IsPlain(u) then Some(Normalised(drops, u)) else None
  }

  function FragmentText(f: Option<string>): string {
    if f.Some? then "#" + f.value else ""
  }

  /** Cutting at the first occurrence of a delimiter. */
  lemma CutAt(a: string, b: string, c: char)
    requires c !in a && (b == "" || b[0] == c)
    ensures IndexOf(a + b, c) == |a| && (a + b)[..|a|] == a
  {
    IndexInConcat(a, b, c);
  }

  lemma SplitRestJoins(u: Url)
    requires IsPlain(u)
    ensures SplitRest(u.scheme, u.authority.value.host + u.path + QueryText(u.query) + FragmentText(u.fragment)) == u
  {
    var host, path, q, f := u.authority.value.host, u.path, QueryText(u.query), FragmentText(u.fragment);
    var rest := host + path + q + f;
    assert AuthorityText(u.authority.value) == host by { assert "" + host + "" == host; }
    LacksInConcat(host, path, '#');
    LacksInConcat(host + path, q, '#');
    LacksInConcat(host, path, '?');
    CutAt(host + path + q, f, '#');
    CutAt(host + path, q, '?');
    CutAt(host, path, '/');
    SplitParts(rest, host, path, q, f);
  }

  lemma LacksInConcat(a: string, b: string, c: char)
    ensures c !in a + b <==> c !in a && c !in b
  {
  }

  lemma SplitSerialize(drops: bool, u: Url)
    requires IsPlain(u)
    ensures SplitUrl(drops, Serialize(u)) == Some(Normalised(drops, u))
  {
    PlainScheme(u);
    hide SplitRest, QueryText, FragmentText, Serialize, FindMark, WellFormed, Normalised;
    var rest := PlainRest(u);
    var raw := u.scheme + "://" + rest;
    SerializedPlainly(u);
    FindMarkAfterScheme(u.scheme, rest);
    assert raw[..|u.scheme|] == u.scheme && raw[|u.scheme| + 3..] == rest;
    SplitRestJoins(u);
  }

  function PlainRest(u: Url): string
    requires u.authority.Some?
  {
    u.authority.value.host + u.path + QueryText(u.query) + FragmentText(u.fragment)
  }

  lemma PlainScheme(u: Url)
    requires IsPlain(u)
    ensures u.authority.Some? && Lacks(u.scheme, ':')
  {
  }

  lemma Regroup(scheme: string, host: string, path: string, q: string, f: string)
    ensures scheme + ":" + ("//" + host) + path + q + f == scheme + "://" + (host + path + q + f)
  {
    assert scheme + ":" + ("//" + host) == scheme + "://" + host;
  }

  lemma PlainAuthority(u: Url)
    requires IsPlain(u)
    ensures u.authority.Some? && AuthorityText(u.authority.value) == u.authority.value.host
  {
    var host := u.authority.value.host;
    assert "" + host + "" == host;
  }

  lemma SerializedPlainly(u: Url)
    requires IsPlain(u)
    ensures u.authority.Some? && Serialize(u) == u.scheme + "://" + PlainRest(u)
  {
    PlainAuthority(u);
    hide QueryText, IsPlain, AuthorityText;
    var host, q, f := u.authority.value.host, QueryText(u.query), FragmentText(u.fragment);
    Regroup(u.scheme, host, u.path, q, f);
    assert Serialize(u) == u.scheme + ":" + ("//" + host) + u.path + q + f;
  }

  lemma SplitParts(rest: string, host: string, path: string, q: string, f: string)
    requires rest == host + path + q + f
    ensures var h, p := |host|, |host| + |path|;
            && rest[..h] == host && rest[h..p] == path && rest[p..p + |q|] == q && rest[p + |q|..] == f
            && (q != "" ==> rest[p + 1..p + |q|] == q[1..])
            && (f != "" ==> rest[p + |q| + 1..] == f[1..])
            && rest[..p] == host + path && rest[..p + |q|] == host + path + q
  {
  }

  /** The text a byte string encodes, if any. */
  ghost function DecodeText(bytes: seq<byte>): string {
    if exists s :: Encode(s) == bytes then (var s :| Encode(s) == bytes; s) else ""
  }

  ghost function PlainLibrary(drops: bool): Library {
    Library(raw => SplitUrl(drops, raw), DecodeText, drops)
  }

  lemma NormalisedIsPlain(drops: bool, u: Url)
    requires IsPlain(u)
    ensures var v := Normalised(drops, u);
            IsPlain(v) && Normalised(drops, v) == v && (IsWeb(v.scheme) ==> v.path != "")
  {
    if u.query.Some? {
      EscapedIsEscaped(u.query.value);
      EscapedIsKept(Escaped(u.query.value));
    }
    hide Escaped, EscapeChar, IsEscaped;
    var r := EscapedQuery(Rooted(u));
    assert IsPlain(r);
    if Driven(drops, r) != r {
      var path := r.path[2 := ':'];
      assert path[1..3][1] == ':';
      forall c | c in path ensures c in r.path || c == ':' {
      }
    }
  }

  /** A plain URL is stable exactly when parsing has nothing to change. */
  lemma StableMeansNormalised(drops: bool, u: Url)
    ensures IsPlain(u) && Normalised(drops, u) == u <==> WellFormed(u) && Stable(PlainLibrary(drops), u)
  {
    hide SplitRest, Serialize, Normalised;
    if IsPlain(u) {
      SplitSerialize(drops, u);
    } else if SplitUrl(drops, Serialize(u)).Some? {
      ParsedIsPlain(drops, Serialize(u));
    }
  }

  lemma ParsedIsPlain(drops: bool, raw: string)
    requires SplitUrl(drops, raw).Some?
    ensures var u := SplitUrl(drops, raw).value;
            IsPlain(u) && Normalised(drops, u) == u && (IsWeb(u.scheme) ==> u.path != "")
  {
    hide SplitRest, WellFormed, Normalised;
    NormalisedIsPlain(drops, SplitRest(raw[..FindMark(raw)], raw[FindMark(raw) + 3..]));
  }

  lemma LowerStaysPlain(host: string)
    requires IsPlainHost(host)
    ensures IsPlainHost(AsciiLower(host))
  {
    forall c | c in AsciiLower(host) ensures !IsForbidden(c) {
      if !('a' <= c <= 'z') {
        LowerLacks(host, c);
      }
    }
  }

  lemma EditsStayPlain(u: Url, q: string)
    requires IsPlain(u)
    ensures IsPlain(u.(authority := LowerHost(u.authority))) && IsPlain(u.(path := NormPath(u.path)))
    ensures IsPlain(u.(fragment := None)) && IsPlain(u.(query := None))
    ensures IsQueryText(q) ==> IsPlain(u.(query := Some(q)))
  {
    LowerHostIsWellFormed(u.authority.value);
    LowerStaysPlain(u.authority.value.host);
    NormPathIsWellFormed(u);
  }

  lemma QueryTextIsEscaped(q: string)
    requires IsQueryText(q)
    ensures IsEscaped(q)
  {
  }

  /** The edits leave parsing nothing to change, unless there is a loose drive. */
  lemma EditsStayNormalised(drops: bool, u: Url, q: string)
    requires IsPlain(u) && Normalised(drops, u) == u && !LooseDrive(PlainLibrary(drops), u)
    ensures Normalised(drops, u.(authority := LowerHost(u.authority))) == u.(authority := LowerHost(u.authority))
    ensures Normalised(drops, u.(fragment := None)) == u.(fragment := None)
    ensures Normalised(drops, u.(query := None)) == u.(query := None)
    ensures Normalised(drops, u.(path := NormPath(u.path))) == u.(path := NormPath(u.path))
    ensures IsQueryText(q) ==> Normalised(drops, u.(query := Some(q))) == u.(query := Some(q))
  {
    if IsQueryText(q) {
      QueryTextIsEscaped(q);
      EscapedIsKept(q);
    }
    NormPathKeepsSegments(u.path);
    hide NormPath, IsQueryText, StartsWithDrive, Escaped, WellFormed;
    assert u.query.Some? ==> Escaped(u.query.value) == u.query.value;
  }

  lemma DecodesUtf8(drops: bool, lib: Library)
    requires lib == PlainLibrary(drops)
    ensures ReadsUtf8(lib.decode)
  {
    forall s: string ensures lib.decode(Encode(s)) == s {
      EncodeInjective(s, DecodeText(Encode(s)));
    }
  }

  lemma EditsStayStable(drops: bool, u: Url, q: string)
    requires Settled(PlainLibrary(drops), u)
    ensures var lib := PlainLibrary(drops);
            && Stable(lib, u.(authority := LowerHost(u.authority)))
            && Stable(lib, u.(fragment := None)) && Stable(lib, u.(query := None))
            && Stable(lib, u.(path := NormPath(u.path)))
            && (IsQueryText(q) ==> Stable(lib, u.(query := Some(q))))
  {
    hide SplitUrl, WellFormed, NormPath, IsQueryText, Serialize, Stable, LooseDrive, Normalised;
    StableMeansNormalised(drops, u);
    EditsStayPlain(u, q);
    EditsStayNormalised(drops, u, q);
    StableMeansNormalised(drops, u.(authority := LowerHost(u.authority)));
    StableMeansNormalised(drops, u.(fragment := None));
    StableMeansNormalised(drops, u.(query := None));
    StableMeansNormalised(drops, u.(path := NormPath(u.path)));
    StableMeansNormalised(drops, u.(query := Some(q)));
  }

  /** With a colon behind the letter, the first segment is no bar drive. */
  lemma ColonIsNoBar(path: string)
    requires StartsWithDrive(path, '|') || StartsWithDrive(path, ':')
    ensures |path| >= 3 && !StartsWithDrive(NormPath(path[2 := ':']), '|')
  {
    var fixed := path[2 := ':'];
    var rest := fixed[1..];
    DriveIsFirstSegment(fixed, '|');
    FirstSegment(rest);
    assert rest[1] == ':';
    hide NormPath;
    if |rest| > 2 {
      assert rest[2] == '/';
    }
    assert IndexOf(rest, '/') == 2;
    assert Segments(fixed) == Segments(rest);
    assert Segments(rest)[0] == rest[..2];
  }

  lemma EditedIsPlain(u: Url, q: Option<string>)
    requires IsPlain(u) && (q.Some? ==> IsQueryText(q.value))
    ensures IsPlain(Edited(u, q))
    ensures q.Some? ==> Escaped(q.value) == q.value
  {
    if q.Some? {
      QueryTextIsEscaped(q.value);
      EscapedIsKept(q.value);
    }
    hide NormPath, WellFormed, Escaped, IsEscaped, IsQueryText, IsPlainHost;
    var a := u.(authority := LowerHost(u.authority));
    EditsStayPlain(u, "");
    EditsStayPlain(a, "");
    var b := a.(path := NormPath(a.path));
    EditsStayPlain(b, if q.Some? then q.value else "");
    EditsStayPlain(b.(query := q), "");
    assert b.(query := q).(fragment := None) == Edited(u, q);
  }

  /** What parsing makes of a drive at the beginning of the path. */
  lemma DrivenByRule(drops: bool, u: Url, w: Url)
    requires LooseDrive(PlainLibrary(drops), u) && u.authority.Some?
    requires w.scheme == u.scheme && w.authority.Some? && w.path == NormPath(u.path)
    requires |w.path| >= 3 && !StartsWithDrive(NormPath(w.path[2 := ':']), '|')
    requires w.fragment.None? && (w.query.Some? ==> Escaped(w.query.value) == w.query.value)
    ensures DriveIsRewritten(PlainLibrary(drops), w, Some(Normalised(drops, w)))
  {
    hide SplitUrl, NormPath, StartsWithDrive, Escaped;
  }

  lemma DriveRuleHolds(drops: bool, u: Url, q: Option<string>)
    requires IsPlain(u) && LooseDrive(PlainLibrary(drops), u) && (q.Some? ==> IsQueryText(q.value))
    ensures DriveIsRewritten(PlainLibrary(drops), Edited(u, q), SplitUrl(drops, Serialize(Edited(u, q))))
  {
    var w := Edited(u, q);
    EditedIsPlain(u, q);
    SplitSerialize(drops, w);
    ColonIsNoBar(w.path);
    hide Serialize, SplitUrl, NormPath, IsPlain, StartsWithDrive, Escaped, IsQueryText, LooseDrive;
    DrivenByRule(drops, u, w);
  }

  lemma PlainLibraryIsLawful(drops: bool, scheme: string)
    ensures Lawful(PlainLibrary(drops), scheme)
  {
    hide SplitUrl, WellFormed, IsPlain, NormPath, IsQueryText, Serialize, Stable, LooseDrive, Normalised, DriveIsRewritten;
    var lib := PlainLibrary(drops);
    DecodesUtf8(drops, lib);
    forall raw: string | lib.parse(raw).Some?
      ensures var u := lib.parse(raw).value;
              IsPlain(u) && u.authority.Some? && WellFormed(u) && Stable(lib, u) && (IsWeb(u.scheme) ==> u.path != "")
    {
      ParsedIsPlain(drops, raw);
      PlainScheme(lib.parse(raw).value);
      StableMeansNormalised(drops, lib.parse(raw).value);
    }
    forall u: Url | Settled(lib, u)
      ensures && Stable(lib, u.(authority := LowerHost(u.authority)))
              && Stable(lib, u.(fragment := None)) && Stable(lib, u.(query := None))
              && Stable(lib, u.(path := NormPath(u.path)))
    {
      EditsStayStable(drops, u, "");
    }
    forall u: Url, q: string | Settled(lib, u) && IsQueryText(q) ensures Stable(lib, u.(query := Some(q))) {
      EditsStayStable(drops, u, q);
    }
    forall raw: string, q: Option<string> |
      lib.parse(raw).Some? && LooseDrive(lib, lib.parse(raw).value) && (q.Some? ==> IsQueryText(q.value))
      ensures var w := Edited(lib.parse(raw).value, q); DriveIsRewritten(lib, w, lib.parse(Serialize(w)))
    {
      DriveRuleHolds(drops, lib.parse(raw).value, q);
    }
  }

  // ----- The concrete URLs -----

  /** Canonicalising `foo://h?k=v` gives `foo://h?k=v/`, and canonicalising that gives something else. */
  lemma SecondPassCanChange(drops: bool)
    ensures Lawful(PlainLibrary(drops), "foo")
    ensures var lib := PlainLibrary(drops);
            Canonical(lib, Canonical(lib, "foo://h?k=v")) != Canonical(lib, "foo://h?k=v")
  {
    hide SplitUrl, Canonical, Kept, Lawful, Stable, Serialize, PlainLibrary, IsPlain;
    var lib := PlainLibrary(drops);
    PlainLibraryIsLawful(drops, "foo");
    var u := ExampleUrl();
    ExampleParses(drops);
    assert ReadsUtf8(lib.decode) by { DecodesUtf8(drops, lib); }
    OnePairIsKept(lib, u);
    IdempotentExactly(lib, "foo://h?k=v", u);
  }

  /** `file://h//C|/x` becomes `file://h/C|/x`, whose drive the next parse rewrites. */
  lemma DrivePathCanChange(drops: bool)
    ensures Lawful(PlainLibrary(drops), "file")
    ensures var lib := PlainLibrary(drops);
            Canonical(lib, Canonical(lib, "file://h//C|/x")) != Canonical(lib, "file://h//C|/x")
  {
    hide SplitUrl, Canonical, Kept, Lawful, Stable, Serialize, PlainLibrary, IsPlain, LooseDrive;
    var lib := PlainLibrary(drops);
    PlainLibraryIsLawful(drops, "file");
    DriveUrlParses(drops, '|');
    DriveUrlIsLoose(drops, '|');
    IdempotentExactly(lib, "file://h//C|/x", DriveUrl('|'));
  }

  /** `file://h//C:/x` becomes `file://h/C:/x`, which changes again only where drives drop hosts. */
  lemma ColonPathChangesWithHost(drops: bool)
    ensures var lib := PlainLibrary(drops);
            Canonical(lib, Canonical(lib, "file://h//C:/x")) != Canonical(lib, "file://h//C:/x") <==> drops
  {
    hide SplitUrl, Canonical, Kept, Lawful, Stable, Serialize, PlainLibrary, IsPlain, LooseDrive;
    var lib := PlainLibrary(drops);
    PlainLibraryIsLawful(drops, "file");
    DriveUrlParses(drops, ':');
    DriveUrlIsLoose(drops, ':');
    IdempotentExactly(lib, "file://h//C:/x", DriveUrl(':'));
  }

  function DriveUrl(mark: char): Url {
    Url("file", Some(Authority("", "h", "")), "//C" + [mark] + "/x", None, None)
  }

  lemma DriveUrlIsPlain(drops: bool, mark: char)
    requires mark == '|' || mark == ':'
    ensures IsPlain(DriveUrl(mark)) && Normalised(drops, DriveUrl(mark)) == DriveUrl(mark)
  {
  }

  lemma DriveUrlText()
    ensures Serialize(DriveUrl('|')) == "file://h//C|/x"
    ensures Serialize(DriveUrl(':')) == "file://h//C:/x"
  {
  }

  lemma DriveUrlParses(drops: bool, mark: char)
    requires mark == '|' || mark == ':'
    ensures PlainLibrary(drops).parse(if mark == '|' then "file://h//C|/x" else "file://h//C:/x") == Some(DriveUrl(mark))
  {
    hide SplitUrl, Serialize, IsPlain, Normalised;
    DriveUrlIsPlain(drops, mark);
    DriveUrlText();
    SplitSerialize(drops, DriveUrl(mark));
  }

  lemma DriveUrlSegment(mark: char)
    requires mark == '|' || mark == ':'
    ensures Segments(DriveUrl(mark).path) != [] && Segments(DriveUrl(mark).path)[0] == "C" + [mark]
  {
    var path := DriveUrl(mark).path;
    var rest: string := "C" + [mark] + "/x";
    assert path[1..][1..] == rest;
    assert path[1..][0] == '/';
    FirstSegment(rest);
    IndexInConcat("C" + [mark], "/x", '/');
    assert Segments(path) == Segments(path[1..]) == Segments(rest);
    assert rest[..2] == "C" + [mark];
  }

  lemma DriveUrlIsLoose(drops: bool, mark: char)
    requires mark == '|' || mark == ':'
    ensures LooseDrive(PlainLibrary(drops), DriveUrl(mark)) <==> mark == '|' || drops
  {
    var path := DriveUrl(mark).path;
    assert path[0] == '/';
    DriveUrlSegment(mark);
    hide NormPath, Segments, StartsWithDrive, SplitUrl;
    DriveIsFirstSegment(path, '|');
    DriveIsFirstSegment(path, ':');
  }

  function ExampleUrl(): Url {
    Url("foo", Some(Authority("", "h", "")), "", Some("k=v"), None)
  }

  lemma ExampleIsPlain(drops: bool)
    ensures IsPlain(ExampleUrl()) && Normalised(drops, ExampleUrl()) == ExampleUrl()
  {
    EscapedIsKept("k=v");
  }

  lemma ExampleText()
    ensures Serialize(ExampleUrl()) == "foo://h?k=v"
  {
  }

  lemma ExampleParses(drops: bool)
    ensures PlainLibrary(drops).parse("foo://h?k=v") == Some(ExampleUrl())
  {
    hide SplitUrl, Serialize, IsPlain, Normalised;
    ExampleIsPlain(drops);
    ExampleText();
    SplitSerialize(drops, ExampleUrl());
  }

  lemma OnePairIsKept(lib: Library, u: Url)
    requires ReadsUtf8(lib.decode) && u.query == Some("k=v")
    ensures Kept(lib, u) == [Pair("k", "v")]
  {
    var pair := Pair("k", "v");
    assert SerializeQuery([pair]) == "k=v" by {
      EncodeLetter('k');
      EncodeLetter('v');
    }
    ParseSerialize([pair], lib.decode);
    assert !IsTracking("k") by { assert |"k"| == 1; }
    NothingToDrop([pair]);
  }

  lemma EncodeLetter(c: char)
    requires 'a' <= c <= 'z'
    ensures PercentEncode(Encode([c])) == [c]
  {
    assert [c][1..] == [];
    assert Encode([c]) == [c as int];
    assert PercentEncode([c as int]) == EncodeByte(c as int) + PercentEncode([]);
  }
}
