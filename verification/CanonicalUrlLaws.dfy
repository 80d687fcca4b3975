/** When canonicalising settles, what it keeps, and which URLs it identifies. */
module CanonicalUrlLaws {
  import opened Common
  import opened Ordering
  import opened Utf8
  import opened FormUrlencoded
  import opened UrlPath
  import opened CanonicalUrl

  // ----- What is asked of the library -----

  predicate Lacks(s: string, c: char) {
    c !in s
  }

  /** The parts of a parsed URL with an authority contain none of the delimiters that end them. */
  predicate WellFormed(u: Url) {
    && Lacks(u.scheme, ':')
    && AsciiLower(u.scheme) == u.scheme
    && u.authority.Some?
    && (var a := AuthorityText(u.authority.value); Lacks(a, '/') && Lacks(a, '?') && Lacks(a, '#'))
    && (u.path == "" || u.path[0] == '/') && Lacks(u.path, '?') && Lacks(u.path, '#')
    && (u.query.Some? ==> Lacks(u.query.value, '#'))
  }

  /** Serialising `u` and parsing the text gives `u` back. */
  ghost predicate Stable(lib: Library, u: Url) {
    lib.parse(Serialize(u)) == Some(u)
  }

  /** Query texts made of encoded pairs, possibly followed by a slash. */
  predicate IsQueryText(q: string) {
    forall c :: c in q ==> IsInert(c) || c == '=' || c == '&' || c == '/'
  }

  /**
   * A `file` URL with a drive that a parse at this place would rewrite: its first non-empty path segment
   * is a letter and a bar or, where drives drop hosts, a letter and a colon behind a host.
   */
  predicate LooseDrive(lib: Library, u: Url) {
    u.scheme == "file" && (StartsWithDrive(NormPath(u.path), '|') || (HostIsDropped(lib, u) && StartsWithDrive(NormPath(u.path), ':')))
  }

  predicate HostIsDropped(lib: Library, u: Url) {
    lib.drivesDropHosts && u.authority.Some? && AuthorityText(u.authority.value) != ""
  }

  predicate IsWeb(scheme: string) {
    scheme == "http" || scheme == "https"
  }

  /** What is asked of every parse: the decoder reads UTF-8, and the parts hold no foreign delimiters. */
  ghost predicate Splits(lib: Library) {
    && ReadsUtf8(lib.decode)
    && forall raw: string :: lib.parse(raw).Some? && lib.parse(raw).value.authority.Some? ==>
         WellFormed(lib.parse(raw).value)
  }

  /** A URL that parsing leaves alone. */
  ghost predicate Settled(lib: Library, u: Url) {
    WellFormed(u) && Stable(lib, u) && !LooseDrive(lib, u)
  }

  /**
   * Section 4 of the WHATWG URL Standard for the URLs of one scheme, as far as it is used here. A URL
   * that was parsed survives a serialise-and-parse, and so does one whose host is lowercased, whose
   * fragment is dropped, whose query is replaced, or whose path has its slashes normalised. `file`
   * URLs with a loose drive are the exception: after these edits, parsing rewrites them and keeps the
   * query. Parsed `http` and `https` URLs have an authority and a path.
   */
  ghost predicate Lawful(lib: Library, scheme: string) {
    && Splits(lib)
    && (forall raw: string ::
          (lib.parse(raw).Some? && lib.parse(raw).value.authority.Some?
           && lib.parse(raw).value.scheme == scheme && !LooseDrive(lib, lib.parse(raw).value))
          ==> Stable(lib, lib.parse(raw).value))
    && (forall u: Url :: Settled(lib, u) && u.scheme == scheme ==>
          && Stable(lib, u.(authority := LowerHost(u.authority)))
          && Stable(lib, u.(fragment := None))
          && Stable(lib, u.(query := None))
          && Stable(lib, u.(path := NormPath(u.path))))
    && (forall u: Url, q: string :: Settled(lib, u) && u.scheme == scheme && IsQueryText(q) ==>
          Stable(lib, u.(query := Some(q))))
    && (scheme == "file" ==> RewritesDrives(lib))
    && (IsWeb(scheme) ==>
          forall raw: string :: lib.parse(raw).Some? && lib.parse(raw).value.scheme == scheme ==>
            lib.parse(raw).value.authority.Some? && lib.parse(raw).value.path != "")
  }

  /** A parsed URL with all the edits at once and some query. */
  function Edited(u: Url, q: Option<string>): Url {
    Url(u.scheme, LowerHost(u.authority), NormPath(u.path), q, None)
  }

  ghost predicate RewritesDrives(lib: Library) {
    forall raw: string, q: Option<string> ::
      (lib.parse(raw).Some? && lib.parse(raw).value.authority.Some? && LooseDrive(lib, lib.parse(raw).value)
       && (q.Some? ==> IsQueryText(q.value)))
      ==> DriveIsRewritten(lib, Edited(lib.parse(raw).value, q), lib.parse(Serialize(Edited(lib.parse(raw).value, q))))
  }

  /** The text of `u` parses to a URL without a loose drive, and with the same query. */
  predicate DriveIsRewritten(lib: Library, u: Url, parsed: Option<Url>) {
    && parsed.Some?
    && parsed.value.scheme == u.scheme && parsed.value.authority.Some? && parsed.value.path != ""
    && !LooseDrive(lib, parsed.value)
    && parsed.value.query == u.query && parsed.value.fragment.None?
  }

  // ----- The text edits against the parts -----

  lemma {:induction false} FindMarkAfterScheme(scheme: string, rest: string)
    requires Lacks(scheme, ':')
    ensures FindMark(scheme + "://" + rest) == |scheme|
  {
    var s := scheme + "://" + rest;
    if scheme == "" {
      assert s[..3] == "://";
    } else {
      assert s[0] == scheme[0] && scheme[0] in scheme;
      assert s[..3][0] != ':';
      assert s[1..] == scheme[1..] + "://" + rest;
      FindMarkAfterScheme(scheme[1..], rest);
    }
  }

  lemma TidyAfterHost(scheme: string, host: string, tail: string)
    requires Lacks(scheme, ':') && Lacks(host, '/')
    requires tail == "" || tail[0] == '/'
    ensures TidySlashes(scheme + "://" + (host + tail)) == scheme + "://" + host + TidyTail(tail)
  {
    var rest := host + tail;
    var s := scheme + "://" + rest;
    FindMarkAfterScheme(scheme, rest);
    assert s[..|scheme| + 3] == scheme + "://" && s[|scheme| + 3..] == rest;
    IndexInConcat(host, tail, '/');
    assert rest[..|host|] == host && rest[|host|..] == tail;
  }

  lemma TidyTailSplits(path: string, q: string)
    requires Lacks(path, '?') && (q == "" || q[0] == '?')
    ensures TidyTail(path + q) == NormPath(path) + q
  {
    IndexInConcat(path, q, '?');
    assert (path + q)[..|path|] == path && (path + q)[|path|..] == q;
  }

  lemma SerializeText(u: Url)
    requires u.authority.Some? && u.fragment.None?
    ensures Serialize(u) == u.scheme + "://" + (AuthorityText(u.authority.value) + (u.path + QueryText(u.query)))
  {
    var a, q := AuthorityText(u.authority.value), QueryText(u.query);
    assert u.scheme + ":" + ("//" + a) == u.scheme + "://" + a;
    assert u.scheme + "://" + a + u.path + q + "" == u.scheme + "://" + (a + (u.path + q));
  }

  lemma TidyText(scheme: string, a: string, path: string, q: string)
    requires Lacks(scheme, ':') && Lacks(a, '/') && Lacks(path, '?')
    requires (path == "" || path[0] == '/') && (q == "" || q[0] == '?') && (path != "" || q == "")
    ensures TidySlashes(scheme + "://" + (a + (path + q))) == scheme + "://" + (a + (NormPath(path) + q))
  {
    hide TidySlashes, TidyTail, NormPath;
    TidyAfterHost(scheme, a, path + q);
    TidyTailSplits(path, q);
    assert scheme + "://" + a + (NormPath(path) + q) == scheme + "://" + (a + (NormPath(path) + q));
  }

  /** With a path to hold on to, tidying the text is normalising the path. */
  lemma TidyIsNormPath(u: Url)
    requires WellFormed(u) && u.fragment.None? && (u.path != "" || u.query.None?)
    ensures TidySlashes(Serialize(u)) == Serialize(u.(path := NormPath(u.path)))
  {
    hide TidySlashes, NormPath, Serialize, AsciiLower;
    SerializeText(u);
    SerializeText(u.(path := NormPath(u.path)));
    TidyText(u.scheme, AuthorityText(u.authority.value), u.path, QueryText(u.query));
  }

  /** Without a path, the query is taken for a part of the host, and the slash lands behind it. */
  lemma TidyWithoutPath(u: Url)
    requires WellFormed(u) && u.fragment.None? && u.path == "" && u.query.Some? && Lacks(u.query.value, '/')
    ensures TidySlashes(Serialize(u)) == Serialize(u.(query := Some(u.query.value + "/")))
  {
    var a, q := AuthorityText(u.authority.value), QueryText(u.query);
    calc {
      TidySlashes(Serialize(u));
      { SerializeText(u); assert a + (u.path + q) == a + q; }
      TidySlashes(u.scheme + "://" + (a + q));
      { TidyHostOnly(u.scheme, a + q); }
      u.scheme + "://" + (a + q) + "/";
      { assert u.scheme + "://" + (a + q) + "/" == u.scheme + "://" + (a + (u.path + (q + "/"))); }
      u.scheme + "://" + (a + (u.path + (q + "/")));
      { SerializeText(u.(query := Some(u.query.value + "/"))); assert q + "/" == "?" + (u.query.value + "/"); }
      Serialize(u.(query := Some(u.query.value + "/")));
    }
  }

  lemma TidyHostOnly(scheme: string, host: string)
    requires Lacks(scheme, ':') && Lacks(host, '/')
    ensures TidySlashes(scheme + "://" + host) == scheme + "://" + host + "/"
  {
    assert host + "" == host;
    TidyAfterHost(scheme, host, "");
    NormPathSpellsSegments("");
    assert ""[..0] == "" && TidyTail("") == "/" + "";
  }

  // ----- The query edits -----

  lemma NameBeforeIsWeakOrder()
    ensures WeakOrder(NameBefore)
  {
    forall a: Pair ensures !StrLess(a.name, a.name) {
      StrLessIrreflexive(a.name);
    }
    forall a: Pair, b: Pair, c: Pair ensures StrLess(a.name, b.name) && StrLess(b.name, c.name) ==> StrLess(a.name, c.name) {
      if StrLess(a.name, b.name) && StrLess(b.name, c.name) {
        StrLessTransitive(a.name, b.name, c.name);
      }
    }
    forall a: Pair, b: Pair, c: Pair | !StrLess(a.name, b.name) && !StrLess(b.name, c.name)
      ensures !StrLess(a.name, c.name)
    {
      if a.name != b.name { StrLessTotal(a.name, b.name); }
      if b.name != c.name { StrLessTotal(b.name, c.name); }
    }
  }

  /** The values given to one name, in order. */
  function ValuesOf(pairs: seq<Pair>, name: string): seq<string> {
    if pairs == [] then []
    else (if pairs[0].name == name then [pairs[0].value] else []) + ValuesOf(pairs[1..], name)
  }

  lemma ValuesCons(x: Pair, s: seq<Pair>, name: string)
    ensures ValuesOf([x] + s, name) == (if x.name == name then [x.value] else []) + ValuesOf(s, name)
  {
    assert ([x] + s)[1..] == s;
  }

  function OwnValue(x: Pair, name: string): seq<string> {
    if x.name == name then [x.value] else []
  }

  /** Pairs of different names may change places. */
  lemma StepOver(x: Pair, y: Pair, tail: seq<Pair>, rest: seq<Pair>, name: string)
    requires x.name != y.name
    requires ValuesOf(tail, name) == OwnValue(x, name) + ValuesOf(rest, name)
    ensures ValuesOf([y] + tail, name) == OwnValue(x, name) + ValuesOf([y] + rest, name)
  {
    hide ValuesOf;
    ValuesCons(y, tail, name);
    ValuesCons(y, rest, name);
  }

  lemma BeforeMeansOtherName(x: Pair, y: Pair)
    requires NameBefore(x, y)
    ensures x.name != y.name
  {
    StrLessIrreflexive(x.name);
  }

  lemma {:induction false} InsertKeepsValues(x: Pair, s: seq<Pair>, name: string)
    ensures ValuesOf(Insert(NameBefore, x, s), name) == OwnValue(x, name) + ValuesOf(s, name)
  {
    hide ValuesOf, StrLess, OwnValue;
    if s != [] && NameBefore(s[0], x) {
      BeforeMeansOtherName(s[0], x);
      InsertKeepsValues(x, s[1..], name);
      StepOver(x, s[0], Insert(NameBefore, x, s[1..]), s[1..], name);
      assert s == [s[0]] + s[1..];
    } else {
      assert Insert(NameBefore, x, s) == [x] + s;
      ValuesAdd(x, s, name);
    }
  }

  lemma ValuesAdd(x: Pair, s: seq<Pair>, name: string)
    ensures ValuesOf([x] + s, name) == OwnValue(x, name) + ValuesOf(s, name)
  {
    ValuesCons(x, s, name);
  }

  /** Sorting by name is stable: the values of each name keep their order. */
  lemma {:induction false} SortKeepsValues(pairs: seq<Pair>, name: string)
    ensures ValuesOf(SortBy(NameBefore, pairs), name) == ValuesOf(pairs, name)
  {
    if pairs != [] {
      SortKeepsValues(pairs[1..], name);
      InsertKeepsValues(pairs[0], SortBy(NameBefore, pairs[1..]), name);
    }
  }

  lemma {:induction false} ValueMeansName(pairs: seq<Pair>, name: string)
    ensures ValuesOf(pairs, name) != [] <==> exists p :: p in pairs && p.name == name
  {
    if pairs != [] {
      ValueMeansName(pairs[1..], name);
      assert pairs == [pairs[0]] + pairs[1..];
      assert pairs[0] in pairs;
    }
  }

  /** A sequence sorted by name is determined by the values it gives to each name. */
  lemma {:induction false} SortedByValues(s: seq<Pair>, t: seq<Pair>)
    requires Sorted(NameBefore, s) && Sorted(NameBefore, t)
    requires forall n :: ValuesOf(s, n) == ValuesOf(t, n)
    ensures s == t
  {
    if s == [] {
      if t != [] {
        ValueMeansName(t, t[0].name);
        HeadIsMember(t);
        assert false;
      }
    } else {
      ValueMeansName(s, s[0].name);
      ValueMeansName(t, s[0].name);
      HeadIsMember(s);
      assert ValuesOf(t, s[0].name) != [];
      SameHeadName(s, t);
      var n := s[0].name;
      assert ValuesOf(s, n)[0] == s[0].value && ValuesOf(t, n)[0] == t[0].value;
      forall m ensures ValuesOf(s[1..], m) == ValuesOf(t[1..], m) {
        var head := if n == m then [s[0].value] else [];
        assert ValuesOf(s, m) == head + ValuesOf(s[1..], m);
        assert ValuesOf(t, m) == head + ValuesOf(t[1..], m);
        assert ValuesOf(s[1..], m) == ValuesOf(s, m)[|head|..];
        assert ValuesOf(t[1..], m) == ValuesOf(t, m)[|head|..];
      }
      SortedByValues(s[1..], t[1..]);
      assert s == [s[0]] + s[1..] && t == [t[0]] + t[1..];
    }
  }

  lemma SameHeadName(s: seq<Pair>, t: seq<Pair>)
    requires s != [] && t != []
    requires Sorted(NameBefore, s) && Sorted(NameBefore, t)
    requires forall n :: ValuesOf(s, n) == ValuesOf(t, n)
    ensures s[0].name == t[0].name
  {
    HeadIsMember(s);
    HeadIsMember(t);
    ValueMeansName(s, s[0].name);
    ValueMeansName(t, s[0].name);
    ValueMeansName(s, t[0].name);
    ValueMeansName(t, t[0].name);
    assert ValuesOf(s, t[0].name) == ValuesOf(t, t[0].name);
    assert ValuesOf(t, s[0].name) == ValuesOf(s, s[0].name);
    var p :| p in t && p.name == s[0].name;
    var q :| q in s && q.name == t[0].name;
    NoneBeforeHead(t, p);
    NoneBeforeHead(s, q);
    if s[0].name != t[0].name {
      StrLessTotal(s[0].name, t[0].name);
      assert false;
    }
  }

  lemma NoneBeforeHead(s: seq<Pair>, p: Pair)
    requires Sorted(NameBefore, s) && p in s
    ensures !NameBefore(p, s[0])
  {
    StrLessIrreflexive(p.name);
    var i :| 0 <= i < |s| && s[i] == p;
  }

  lemma {:induction false} DropTrackingSpec(pairs: seq<Pair>)
    ensures forall p :: p in DropTracking(pairs) <==> p in pairs && !IsTracking(p.name)
    ensures forall n :: ValuesOf(DropTracking(pairs), n) == if IsTracking(n) then [] else ValuesOf(pairs, n)
    ensures forall p: Pair :: !IsTracking(p.name) ==> multiset(DropTracking(pairs))[p] == multiset(pairs)[p]
  {
    hide IsTracking;
    if pairs != [] {
      var first, rest := pairs[0], pairs[1..];
      assert pairs == [first] + rest;
      DropTrackingSpec(rest);
      if !IsTracking(first.name) {
        assert DropTracking(pairs) == [first] + DropTracking(rest);
        assert ([first] + DropTracking(rest))[1..] == DropTracking(rest);
      } else {
        assert DropTracking(pairs) == DropTracking(rest);
      }
    }
  }

  lemma {:induction false} NothingToDrop(pairs: seq<Pair>)
    requires forall p :: p in pairs ==> !IsTracking(p.name)
    ensures DropTracking(pairs) == pairs
  {
    if pairs != [] {
      assert pairs == [pairs[0]] + pairs[1..];
      assert pairs[0] in pairs;
      NothingToDrop(pairs[1..]);
    }
  }

  /** What the canonical query parses to: the surviving pairs, sorted. */
  lemma CanonicalQueryPairs(lib: Library, u: Url)
    requires ReadsUtf8(lib.decode)
    ensures QueryPairs(lib, Cleaned(lib, u)) == SortBy(NameBefore, Kept(lib, u))
    ensures Kept(lib, Cleaned(lib, u)) == SortBy(NameBefore, Kept(lib, u))
    ensures CanonicalQuery(Kept(lib, Cleaned(lib, u))) == CanonicalQuery(Kept(lib, u))
  {
    var sorted := SortBy(NameBefore, Kept(lib, u));
    ParseSerialize(sorted, lib.decode);
    SortedKeptPairs(lib, u);
    NothingToDrop(sorted);
    SortOfSorted(NameBefore, sorted);
  }

  // ----- The canonical URL as a URL -----

  /** The parts of the canonical form, when there is a path (or no query left) to attach them to. */
  function CanonicalParts(lib: Library, u: Url): Url {
    var c := Cleaned(lib, u);
    c.(path := NormPath(c.path))
  }

  lemma {:induction false} LowerTwice(s: string)
    ensures AsciiLower(AsciiLower(s)) == AsciiLower(s)
  {
  }

  lemma LowerHostIsWellFormed(a: Authority)
    requires Lacks(AuthorityText(a), '/') && Lacks(AuthorityText(a), '?') && Lacks(AuthorityText(a), '#')
    ensures var b := AuthorityText(a.(host := AsciiLower(a.host)));
            Lacks(b, '/') && Lacks(b, '?') && Lacks(b, '#')
  {
    LowerLacks(a.host, '/');
    LowerLacks(a.host, '?');
    LowerLacks(a.host, '#');
    forall c | c in a.userinfo + a.host + a.port ensures c in AuthorityText(a) {
    }
    assert forall c :: c in a.userinfo || c in a.host || c in a.port ==> c in a.userinfo + a.host + a.port;
  }

  /** Lowercasing the host leaves a drive as loose as it was, and so does normalising the path. */
  lemma EditsKeepLooseDrive(lib: Library, u: Url, v: Url)
    requires v.scheme == u.scheme && u.authority.Some? && v.authority == LowerHost(u.authority)
    requires (u.path == "" || u.path[0] == '/') && (v.path == u.path || v.path == NormPath(u.path))
    ensures LooseDrive(lib, v) <==> LooseDrive(lib, u)
  {
    hide NormPath, StartsWithDrive;
    NormPathKeepsSegments(u.path);
  }

  lemma LowerLacks(s: string, c: char)
    requires !('a' <= c <= 'z')
    ensures c in AsciiLower(s) ==> c in s
  {
  }

  lemma CanonicalQueryIsText(pairs: seq<Pair>)
    requires pairs != []
    ensures var q := CanonicalQuery(pairs).value;
            IsQueryText(q) && Lacks(q, '#') && Lacks(q, '/')
  {
    SerializedIsQueryText(SortBy(NameBefore, pairs));
  }

  lemma CleanedIsWellFormed(lib: Library, u: Url)
    requires WellFormed(u)
    ensures WellFormed(Cleaned(lib, u))
  {
    LowerHostIsWellFormed(u.authority.value);
    if Kept(lib, u) != [] {
      CanonicalQueryIsText(Kept(lib, u));
    }
  }

  /** The edits on the parsed URL, one by one, keep it settled. */
  lemma CleanedIsSettled(lib: Library, u: Url)
    requires Lawful(lib, u.scheme) && Settled(lib, u)
    ensures Settled(lib, Cleaned(lib, u))
  {
    hide NormPath, StartsWithDrive, Serialize, Kept, SerializeQuery, SortBy;
    CleanedIsWellFormed(lib, u);
    LowerHostIsWellFormed(u.authority.value);
    var a := u.(authority := LowerHost(u.authority));
    EditsKeepLooseDrive(lib, u, a);
    assert Settled(lib, a);
    var b := a.(fragment := None);
    assert Settled(lib, b);
    if Kept(lib, u) == [] {
      assert Cleaned(lib, u) == b.(query := None);
    } else {
      CanonicalQueryIsText(Kept(lib, u));
      assert Cleaned(lib, u) == b.(query := CanonicalQuery(Kept(lib, u)));
    }
  }

  lemma NormPathIsWellFormed(u: Url)
    requires WellFormed(u)
    ensures WellFormed(u.(path := NormPath(u.path)))
  {
    NormPathKeepsSegments(u.path);
    forall c | c in NormPath(u.path) ensures c != '?' && c != '#' {
      NormPathAddsNothing(u.path, c);
    }
  }

  /** With a path, the canonical text spells the canonical parts. */
  lemma CanonicalSpellsParts(lib: Library, raw: string, u: Url)
    requires Splits(lib) && lib.parse(raw) == Some(u) && u.authority.Some?
    requires u.path != "" || Kept(lib, u) == []
    ensures var v := CanonicalParts(lib, u);
            Canonical(lib, raw) == Serialize(v) && WellFormed(v) && v.path != ""
  {
    hide TidySlashes, Serialize, Kept;
    assert WellFormed(u);
    CleanedIsWellFormed(lib, u);
    TidyIsNormPath(Cleaned(lib, u));
    NormPathIsWellFormed(Cleaned(lib, u));
    NormPathKeepsSegments(u.path);
  }

  /** Unless a drive gets in the way, it also parses to them. */
  lemma CanonicalParsesToParts(lib: Library, raw: string, u: Url)
    requires Lawful(lib, u.scheme) && lib.parse(raw) == Some(u) && u.authority.Some? && !LooseDrive(lib, u)
    requires u.path != "" || Kept(lib, u) == []
    ensures lib.parse(Canonical(lib, raw)) == Some(CanonicalParts(lib, u))
    ensures !LooseDrive(lib, CanonicalParts(lib, u)) && CanonicalParts(lib, u).scheme == u.scheme
  {
    hide NormPath, TidySlashes, Serialize, Kept, StartsWithDrive;
    CanonicalSpellsParts(lib, raw, u);
    CleanedIsSettled(lib, u);
    NormPathKeepsSegments(u.path);
  }

  lemma QueryMayBeReplaced(lib: Library, u: Url, q: string)
    requires Lawful(lib, u.scheme) && Settled(lib, u) && IsQueryText(q)
    ensures Stable(lib, u.(query := Some(q)))
  {
  }

  lemma ParsedIsSettled(lib: Library, raw: string, u: Url)
    requires Lawful(lib, u.scheme) && lib.parse(raw) == Some(u) && u.authority.Some? && !LooseDrive(lib, u)
    ensures Settled(lib, u)
  {
  }

  /** A path that is not there holds no drive. */
  lemma EmptyPathHasNoDrive(lib: Library, u: Url)
    requires u.path == ""
    ensures !LooseDrive(lib, u)
  {
    NormPathSpellsSegments(u.path);
  }

  lemma SlashedIsQueryText(q: string)
    requires IsQueryText(q)
    ensures IsQueryText(q + "/")
  {
  }

  /** Without a path and with surviving pairs, a slash is appended to the query. */
  lemma CanonicalWithoutPath(lib: Library, raw: string, u: Url)
    requires Lawful(lib, u.scheme) && lib.parse(raw) == Some(u) && u.authority.Some?
    requires u.path == "" && Kept(lib, u) != []
    ensures var c := Cleaned(lib, u);
            var w := c.(query := Some(c.query.value + "/"));
            Canonical(lib, raw) == Serialize(w) && lib.parse(Canonical(lib, raw)) == Some(w)
  {
    EmptyPathHasNoDrive(lib, u);
    ParsedIsSettled(lib, raw, u);
    CleanedIsSettled(lib, u);
    hide Lawful, TidySlashes, Serialize, WellFormed, IsQueryText, SerializeQuery, SortBy, Kept, Lacks, LooseDrive;
    var c := Cleaned(lib, u);
    CanonicalQueryIsText(Kept(lib, u));
    TidyWithoutPath(c);
    SlashedIsQueryText(c.query.value);
    QueryMayBeReplaced(lib, c, c.query.value + "/");
  }

  // ----- Idempotence -----

  lemma CanonicalPartsSettle(lib: Library, u: Url)
    requires ReadsUtf8(lib.decode) && WellFormed(u)
    ensures CanonicalParts(lib, CanonicalParts(lib, u)) == CanonicalParts(lib, u)
  {
    var v := CanonicalParts(lib, u);
    CanonicalQueryPairs(lib, u);
    LowerTwice(u.scheme);
    LowerTwice(u.authority.value.host);
    NormPathKeepsSegments(u.path);
    assert QueryPairs(lib, v) == QueryPairs(lib, Cleaned(lib, u));
  }

  /** The pairs with a slash appended to the last value. */
  function WithSlash(pairs: seq<Pair>): seq<Pair>
    requires pairs != []
  {
    var last := pairs[|pairs| - 1];
    pairs[..|pairs| - 1] + [Pair(last.name, last.value + "/")]
  }

  lemma EncodedPairIsPiece(p: Pair)
    ensures EncodePair(p) != "" && forall i :: 0 <= i < |EncodePair(p)| ==> EncodePair(p)[i] != '&'
  {
    EncodedPairHasNoAmpersand(p);
  }

  lemma SlashGoesLast(front: seq<Pair>, last: Pair)
    ensures SerializeQuery(front + [last]) + "/" == Join(EncodePairs(front) + [EncodePair(last) + "/"], '&')
  {
    hide EncodePair, Join;
    SerializeSnoc(front, last);
    JoinSnoc(EncodePairs(front), EncodePair(last) + "/");
  }

  lemma SlashedQueryParts(front: seq<Pair>, last: Pair) returns (parts: seq<string>)
    ensures parts == EncodePairs(front) + [EncodePair(last) + "/"]
    ensures SerializeQuery(front + [last]) + "/" == Join(parts, '&')
    ensures forall p :: p in parts ==> p != "" && forall i :: 0 <= i < |p| ==> p[i] != '&'
  {
    hide EncodePair, SerializeQuery, Join, IsInert;
    var encoded := EncodePairs(front);
    parts := encoded + [EncodePair(last) + "/"];
    SlashGoesLast(front, last);
    EncodedPairIsPiece(last);
    assert EncodePair(last) + "/" != "";
    forall p | p in parts ensures p != "" && forall i :: 0 <= i < |p| ==> p[i] != '&' {
      if p in encoded {
        var j :| 0 <= j < |front| && encoded[j] == p;
        EncodedPairIsPiece(front[j]);
      }
    }
  }

  lemma ParsedFront(front: seq<Pair>, piece: string, decode: Decoder)
    requires ReadsUtf8(decode)
    ensures ParsePieces(EncodePairs(front) + [piece], decode) == front + [ParsePiece(piece, decode)]
  {
    hide EncodePair, ParsePiece;
    var parts := EncodePairs(front) + [piece];
    forall i | 0 <= i < |front| ensures ParsePiece(parts[i], decode) == front[i] {
      PairRoundTrip(front[i], decode);
    }
  }

  /** A slash behind the last value becomes part of that value. */
  lemma SlashJoinsLastValue(pairs: seq<Pair>, decode: Decoder)
    requires ReadsUtf8(decode) && pairs != []
    ensures ParseQuery(SerializeQuery(pairs) + "/", decode) == WithSlash(pairs)
  {
    hide EncodePair, ParsePiece, Pieces, Join, EncodePairs, ParsePieces, SerializeQuery, ReadsUtf8;
    var front, last := pairs[..|pairs| - 1], pairs[|pairs| - 1];
    assert pairs == front + [last];
    var parts := SlashedQueryParts(front, last);
    PiecesOfJoin(parts);
    ParsedFront(front, EncodePair(last) + "/", decode);
    PairWithSlash(last, decode);
  }

  lemma {:induction false} PercentDecodeSlash(bytes: seq<byte>)
    ensures PercentDecode(PercentEncode(bytes) + "/") == bytes + [0x2F]
  {
    if bytes == [] {
      assert PercentEncode(bytes) + "/" == "/";
      assert "/"[1..] == "";
      assert Escape("/") == None && EncodeChar('/') == [0x2F];
    } else {
      PercentDecodeSlash(bytes[1..]);
      DecodeOneByte(bytes[0], PercentEncode(bytes[1..]) + "/");
      assert PercentEncode(bytes) + "/" == EncodeByte(bytes[0]) + (PercentEncode(bytes[1..]) + "/");
      assert [bytes[0]] + (bytes[1..] + [0x2F]) == bytes + [0x2F];
    }
  }

  lemma PairWithSlash(p: Pair, decode: Decoder)
    requires ReadsUtf8(decode)
    ensures ParsePiece(EncodePair(p) + "/", decode) == Pair(p.name, p.value + "/")
  {
    var n, v := PercentEncode(Encode(p.name)), PercentEncode(Encode(p.value));
    assert EncodePair(p) + "/" == n + "=" + (v + "/");
    EncodedHasNoEquals(Encode(p.name));
    ParseSplitsAtEquals(n, v + "/", decode);
    PercentRoundTrip(Encode(p.name));
    PercentDecodeSlash(Encode(p.value));
    EncodeWithSlash(p.value);
  }

  lemma EncodeWithSlash(s: string)
    ensures Encode(s + "/") == Encode(s) + [0x2F]
  {
    EncodeConcat(s, "/");
    assert Encode("/") == EncodeChar('/') + Encode("/"[1..]);
  }

  /** Re-encoding the slash makes the query longer. */
  lemma SlashIsEscaped(pairs: seq<Pair>)
    requires pairs != []
    ensures |SerializeQuery(WithSlash(pairs))| == |SerializeQuery(pairs)| + 3
  {
    var front, last := pairs[..|pairs| - 1], pairs[|pairs| - 1];
    assert pairs == front + [last];
    SerializeSnoc(front, last);
    SerializeSnoc(front, Pair(last.name, last.value + "/"));
    EncodeWithSlash(last.value);
    EncodeSlash(Encode(last.value));
    assert |EncodePair(Pair(last.name, last.value + "/"))| == |EncodePair(last)| + 3;
  }

  lemma {:induction false} EncodeSlash(bytes: seq<byte>)
    ensures |PercentEncode(bytes + [0x2F])| == |PercentEncode(bytes)| + 3
  {
    if bytes == [] {
      SlashTakesThree();
      assert bytes + [0x2F] == [0x2F];
    } else {
      var more := bytes + [0x2F];
      assert more[1..] == bytes[1..] + [0x2F] && more[0] == bytes[0];
      EncodeSlash(bytes[1..]);
      hide EncodeByte;
      assert PercentEncode(more) == EncodeByte(more[0]) + PercentEncode(more[1..]);
      assert PercentEncode(bytes) == EncodeByte(bytes[0]) + PercentEncode(bytes[1..]);
    }
  }

  lemma SlashTakesThree()
    ensures |PercentEncode([0x2F])| == 3
  {
    var slash: seq<byte> := [0x2F];
    assert slash[1..] == [];
    assert PercentEncode(slash) == EncodeByte(0x2F) + PercentEncode([]);
    assert |EncodeByte(0x2F)| == 3;
  }

  lemma SameNamesStaySorted(pairs: seq<Pair>, more: seq<Pair>)
    requires Sorted(NameBefore, pairs) && |more| == |pairs|
    requires forall i :: 0 <= i < |pairs| ==> more[i].name == pairs[i].name
    ensures Sorted(NameBefore, more)
  {
    forall i, j | 0 <= i < j < |more| ensures !NameBefore(more[j], more[i]) {
      assert !NameBefore(pairs[j], pairs[i]);
    }
  }

  /** The query a second pass starts from, and the one it ends with. */
  lemma SlashedQueryAgain(lib: Library, u: Url)
    requires ReadsUtf8(lib.decode) && Kept(lib, u) != []
    ensures var c := Cleaned(lib, u);
            var w := c.(query := Some(c.query.value + "/"));
            Kept(lib, w) != [] && |CanonicalQuery(Kept(lib, w)).value| == |c.query.value| + 3
  {
    var sorted := SortBy(NameBefore, Kept(lib, u));
    SortedKeptPairs(lib, u);
    SlashJoinsLastValue(sorted, lib.decode);
    SlashKeepsNames(sorted);
    NothingToDrop(WithSlash(sorted));
    SortOfSorted(NameBefore, WithSlash(sorted));
    SlashIsEscaped(sorted);
  }

  lemma SortedKeptPairs(lib: Library, u: Url)
    ensures var sorted := SortBy(NameBefore, Kept(lib, u));
            && |sorted| == |Kept(lib, u)|
            && Sorted(NameBefore, sorted)
            && (forall p :: p in sorted ==> !IsTracking(p.name))
  {
    hide IsTracking;
    var kept := Kept(lib, u);
    var sorted := SortBy(NameBefore, kept);
    SortByPermutes(NameBefore, kept);
    assert |multiset(sorted)| == |multiset(kept)|;
    DropTrackingSpec(QueryPairs(lib, u));
    forall p | p in sorted ensures !IsTracking(p.name) {
      assert p in multiset(sorted);
      assert p in kept;
    }
    NameBeforeIsWeakOrder();
    SortByIsSorted(NameBefore, kept);
  }

  lemma SlashKeepsNames(pairs: seq<Pair>)
    requires pairs != [] && Sorted(NameBefore, pairs)
    requires forall p :: p in pairs ==> !IsTracking(p.name)
    ensures Sorted(NameBefore, WithSlash(pairs))
    ensures forall p :: p in WithSlash(pairs) ==> !IsTracking(p.name)
  {
    hide IsTracking;
    var more := WithSlash(pairs);
    SameNamesStaySorted(pairs, more);
    forall p | p in more ensures !IsTracking(p.name) {
      var i :| 0 <= i < |more| && more[i] == p;
      assert pairs[i] in pairs && pairs[i].name == p.name;
    }
  }

  lemma SecondPassChanges(lib: Library, raw: string, u: Url)
    requires Lawful(lib, u.scheme) && lib.parse(raw) == Some(u) && u.authority.Some?
    requires u.path == "" && Kept(lib, u) != []
    ensures |Canonical(lib, Canonical(lib, raw))| == |Canonical(lib, raw)| + 3
  {
    CanonicalWithoutPath(lib, raw, u);
    SlashedQueryAgain(lib, u);
    var c := Cleaned(lib, u);
    var w := c.(query := Some(c.query.value + "/"));
    CanonicalWithoutPath(lib, Canonical(lib, raw), w);
    LowerTwice(u.scheme);
    LowerTwice(u.authority.value.host);
    var c2 := Cleaned(lib, w);
    assert c2 == c.(query := c2.query);
    SerializeText(w);
    SerializeText(c2.(query := Some(c2.query.value + "/")));
  }

  /** Texts of well-formed URLs with paths agree only if all parts of the texts do. */
  lemma SerializedPartsAreUnique(u: Url, v: Url)
    requires WellFormed(u) && u.fragment.None? && u.path != ""
    requires WellFormed(v) && v.fragment.None? && v.path != ""
    requires Serialize(u) == Serialize(v)
    ensures u.scheme == v.scheme && u.path == v.path && u.query == v.query
    ensures AuthorityText(u.authority.value) == AuthorityText(v.authority.value)
  {
    hide AsciiLower, Serialize;
    SerializeText(u);
    SerializeText(v);
    var s, t := TextOf(u), TextOf(v);
    assert u.scheme + "://" + s == v.scheme + "://" + t;
    FindMarkAfterScheme(u.scheme, s);
    FindMarkAfterScheme(v.scheme, t);
    assert (u.scheme + "://" + s)[..|u.scheme|] == u.scheme && (v.scheme + "://" + t)[..|v.scheme|] == v.scheme;
    assert (u.scheme + "://" + s)[|u.scheme| + 3..] == s && (v.scheme + "://" + t)[|v.scheme| + 3..] == t;
    RestIsUnique(AuthorityText(u.authority.value), u.path, QueryText(u.query),
                 AuthorityText(v.authority.value), v.path, QueryText(v.query));
    assert u.query.Some? ==> QueryText(u.query)[1..] == u.query.value;
    assert v.query.Some? ==> QueryText(v.query)[1..] == v.query.value;
  }

  /** Everything behind the scheme. */
  function TextOf(u: Url): string
    requires u.authority.Some?
  {
    AuthorityText(u.authority.value) + (u.path + QueryText(u.query))
  }

  lemma RestIsUnique(a: string, p: string, q: string, a': string, p': string, q': string)
    requires Lacks(a, '/') && p != "" && p[0] == '/' && Lacks(p, '?') && (q == "" || q[0] == '?')
    requires Lacks(a', '/') && p' != "" && p'[0] == '/' && Lacks(p', '?') && (q' == "" || q'[0] == '?')
    requires a + (p + q) == a' + (p' + q')
    ensures a == a' && p == p' && q == q'
  {
    IndexInConcat(a, p + q, '/');
    IndexInConcat(a', p' + q', '/');
    assert (a + (p + q))[..|a|] == a && (a' + (p' + q'))[..|a'|] == a';
    assert (a + (p + q))[|a|..] == p + q && (a' + (p' + q'))[|a'|..] == p' + q';
    IndexInConcat(p, q, '?');
    IndexInConcat(p', q', '?');
    assert (p + q)[..|p|] == p && (p' + q')[..|p'|] == p';
    assert (p + q)[|p|..] == q && (p' + q')[|p'|..] == q';
  }

  /** The canonical parts are what the law about drives speaks of. */
  lemma CanonicalPartsAreEdited(lib: Library, raw: string, u: Url)
    requires Lawful(lib, u.scheme) && lib.parse(raw) == Some(u) && u.authority.Some? && LooseDrive(lib, u)
    ensures var p := CanonicalParts(lib, u);
            LooseDrive(lib, p) && DriveIsRewritten(lib, p, lib.parse(Serialize(p)))
  {
    hide StartsWithDrive, NormPath, Serialize, Kept, SerializeQuery, SortBy, DriveIsRewritten, IsQueryText;
    var p, q := CanonicalParts(lib, u), CanonicalQuery(Kept(lib, u));
    EditsKeepLooseDrive(lib, u, p);
    if Kept(lib, u) != [] {
      CanonicalQueryIsText(Kept(lib, u));
    }
    assert p == Edited(u, q);
  }

  /** Once the slashes before a loose drive are collapsed, the next parse rewrites the drive. */
  lemma DriveChanges(lib: Library, raw: string, u: Url)
    requires Lawful(lib, u.scheme) && lib.parse(raw) == Some(u) && u.authority.Some? && LooseDrive(lib, u)
    ensures Canonical(lib, Canonical(lib, raw)) != Canonical(lib, raw)
  {
    hide StartsWithDrive, NormPath, Serialize, Kept, TidySlashes, WellFormed;
    if u.path == "" {
      EmptyPathHasNoDrive(lib, u);
    }
    CanonicalSpellsParts(lib, raw, u);
    var p := CanonicalParts(lib, u);
    CanonicalPartsAreEdited(lib, raw, u);
    var w := lib.parse(Canonical(lib, raw)).value;
    CanonicalSpellsParts(lib, Canonical(lib, raw), w);
    if Canonical(lib, Canonical(lib, raw)) == Canonical(lib, raw) {
      SerializedPartsAreUnique(CanonicalParts(lib, w), p);
    }
  }

  /**
   * Canonicalising is idempotent on a URL with an authority if and only if the URL has a path or no
   * query pair survives, and it is no `file` URL with a loose drive.
   */
  lemma IdempotentExactly(lib: Library, raw: string, u: Url)
    requires Lawful(lib, u.scheme) && lib.parse(raw) == Some(u) && u.authority.Some?
    ensures Canonical(lib, Canonical(lib, raw)) == Canonical(lib, raw)
       <==> (u.path != "" || Kept(lib, u) == []) && !LooseDrive(lib, u)
  {
    hide LooseDrive, Kept, Serialize, TidySlashes, NormPath;
    if LooseDrive(lib, u) {
      DriveChanges(lib, raw, u);
    } else if u.path != "" || Kept(lib, u) == [] {
      CanonicalSpellsParts(lib, raw, u);
      CanonicalParsesToParts(lib, raw, u);
      CanonicalSpellsParts(lib, Canonical(lib, raw), CanonicalParts(lib, u));
      assert WellFormed(u);
      CanonicalPartsSettle(lib, u);
    } else {
      SecondPassChanges(lib, raw, u);
    }
  }

  /** On the URLs the program takes from result pages it always is. */
  lemma WebUrlsSettle(lib: Library, raw: string, u: Url)
    requires Lawful(lib, u.scheme) && lib.parse(raw) == Some(u) && IsWeb(u.scheme)
    ensures Canonical(lib, Canonical(lib, raw)) == Canonical(lib, raw)
  {
    hide Kept, Serialize, TidySlashes, NormPath, Canonical;
    assert u.authority.Some? && u.path != "";
    IdempotentExactly(lib, raw, u);
  }

  // ----- What is kept -----

  /** Every pair that is not a tracking pair is still there, as often as before; nothing else is. */
  lemma CanonicalKeepsPairs(lib: Library, raw: string, u: Url)
    requires Lawful(lib, u.scheme) && lib.parse(raw) == Some(u) && u.authority.Some? && u.path != ""
    ensures lib.parse(Canonical(lib, raw)).Some?
    ensures var v := lib.parse(Canonical(lib, raw)).value;
            && v.fragment.None?
            && (!LooseDrive(lib, u) ==> Segments(v.path) == Segments(u.path))
            && (forall p: Pair :: multiset(QueryPairs(lib, v))[p]
                  == if IsTracking(p.name) then 0 else multiset(QueryPairs(lib, u))[p])
            && Sorted(NameBefore, QueryPairs(lib, v))
  {
    CanonicalKeepsQuery(lib, raw, u);
    hide LooseDrive, NormPath, Segments, Serialize, TidySlashes;
    CanonicalQueryPairs(lib, u);
    var kept := Kept(lib, u);
    DropTrackingSpec(QueryPairs(lib, u));
    SortByPermutes(NameBefore, kept);
    NameBeforeIsWeakOrder();
    SortByIsSorted(NameBefore, kept);
    forall p: Pair ensures multiset(kept)[p] == if IsTracking(p.name) then 0 else multiset(QueryPairs(lib, u))[p] {
      assert p in multiset(kept) <==> p in kept;
    }
  }

  /** The names of the canonical query ascend. */
  lemma CanonicalNamesAscend(lib: Library, raw: string, u: Url, i: nat, j: nat)
    requires Lawful(lib, u.scheme) && lib.parse(raw) == Some(u) && u.authority.Some? && u.path != ""
    ensures lib.parse(Canonical(lib, raw)).Some?
    ensures var pairs := QueryPairs(lib, lib.parse(Canonical(lib, raw)).value);
            i < j < |pairs| ==> pairs[i].name == pairs[j].name || StrLess(pairs[i].name, pairs[j].name)
  {
    hide LooseDrive, NormPath, Segments, Serialize, TidySlashes, StrLess;
    CanonicalKeepsPairs(lib, raw, u);
    var pairs := QueryPairs(lib, lib.parse(Canonical(lib, raw)).value);
    if i < j < |pairs| && pairs[i].name != pairs[j].name {
      StrLessTotal(pairs[i].name, pairs[j].name);
      assert !NameBefore(pairs[j], pairs[i]);
    }
  }

  lemma CanonicalKeepsQuery(lib: Library, raw: string, u: Url)
    requires Lawful(lib, u.scheme) && lib.parse(raw) == Some(u) && u.authority.Some? && u.path != ""
    ensures var v := lib.parse(Canonical(lib, raw));
      && v.Some? && v.value.fragment.None? && v.value.query == Cleaned(lib, u).query
      && (!LooseDrive(lib, u) ==> Segments(v.value.path) == Segments(u.path))
  {
    hide Segments, StartsWithDrive, NormPath, Serialize, TidySlashes, Kept;
    CanonicalSpellsParts(lib, raw, u);
    NormPathKeepsSegments(u.path);
    if LooseDrive(lib, u) {
      CanonicalPartsAreEdited(lib, raw, u);
    } else {
      CanonicalParsesToParts(lib, raw, u);
    }
  }

  // ----- Which URLs are identified -----

  /**
   * Two parsed URLs point to the same page as far as deduplication can tell: same scheme, same
   * authority text up to the case of the host, same path segments, and for every non-tracking name the
   * same values in the same order.
   */
  ghost predicate SamePage(lib: Library, u: Url, v: Url) {
    && AsciiLower(u.scheme) == AsciiLower(v.scheme)
    && (u.authority.Some? && v.authority.Some?
        && AuthorityText(LowerHost(u.authority).value) == AuthorityText(LowerHost(v.authority).value))
    && Segments(u.path) == Segments(v.path)
    && forall n :: !IsTracking(n) ==> ValuesOf(QueryPairs(lib, u), n) == ValuesOf(QueryPairs(lib, v), n)
  }

  lemma SameQueryExactly(lib: Library, u: Url, v: Url)
    requires ReadsUtf8(lib.decode)
    ensures CanonicalQuery(Kept(lib, u)) == CanonicalQuery(Kept(lib, v))
       <==> forall n :: !IsTracking(n) ==> ValuesOf(QueryPairs(lib, u), n) == ValuesOf(QueryPairs(lib, v), n)
  {
    var ku, kv := Kept(lib, u), Kept(lib, v);
    var su, sv := SortBy(NameBefore, ku), SortBy(NameBefore, kv);
    DropTrackingSpec(QueryPairs(lib, u));
    DropTrackingSpec(QueryPairs(lib, v));
    forall n ensures ValuesOf(su, n) == ValuesOf(ku, n) && ValuesOf(sv, n) == ValuesOf(kv, n) {
      SortKeepsValues(ku, n);
      SortKeepsValues(kv, n);
    }
    CanonicalQueryPairs(lib, u);
    CanonicalQueryPairs(lib, v);
    if CanonicalQuery(ku) == CanonicalQuery(kv) {
      assert QueryPairs(lib, Cleaned(lib, u)) == QueryPairs(lib, Cleaned(lib, v));
      assert su == sv;
    }
    if forall n :: !IsTracking(n) ==> ValuesOf(QueryPairs(lib, u), n) == ValuesOf(QueryPairs(lib, v), n) {
      NameBeforeIsWeakOrder();
      SortByIsSorted(NameBefore, ku);
      SortByIsSorted(NameBefore, kv);
      SortedByValues(su, sv);
      SortByPermutes(NameBefore, ku);
      SortByPermutes(NameBefore, kv);
      assert |multiset(su)| == |multiset(ku)| && |multiset(sv)| == |multiset(kv)|;
    }
  }

  /** Two URLs get the same canonical form if and only if they are the same page. */
  lemma EqualFormsExactlyForSamePage(lib: Library, rawU: string, u: Url, rawV: string, v: Url)
    requires Splits(lib)
    requires lib.parse(rawU) == Some(u) && u.authority.Some? && u.path != ""
    requires lib.parse(rawV) == Some(v) && v.authority.Some? && v.path != ""
    ensures Canonical(lib, rawU) == Canonical(lib, rawV) <==> SamePage(lib, u, v)
  {
    CanonicalSpellsParts(lib, rawU, u);
    CanonicalSpellsParts(lib, rawV, v);
    assert WellFormed(u) && WellFormed(v);
    SameQueryExactly(lib, u, v);
    SamePathExactly(u.path, v.path);
    hide Segments, NormPath, Kept, SortBy, SerializeQuery, AsciiLower, TidySlashes, ValuesOf, QueryPairs, WellFormed;
    var p, q := CanonicalParts(lib, u), CanonicalParts(lib, v);
    if Canonical(lib, rawU) == Canonical(lib, rawV) {
      SerializedPartsAreUnique(p, q);
    } else if SamePage(lib, u, v) {
      SerializeText(p);
      SerializeText(q);
    }
  }

  lemma SamePathExactly(p: string, q: string)
    requires p != "" && p[0] == '/' && q != "" && q[0] == '/'
    ensures NormPath(p) == NormPath(q) <==> Segments(p) == Segments(q)
  {
    NormPathKeepsSegments(p);
    NormPathKeepsSegments(q);
    NormPathSpellsSegments(p);
    NormPathSpellsSegments(q);
  }

  /** Only five `utm_` names are dropped; a sixth one in use is kept. */
  lemma OtherUtmNamesSurvive(value: string)
    ensures DropTracking([Pair("utm_id", value)]) == [Pair("utm_id", value)]
  {
    assert |"utm_id"| == 6;
    NothingToDrop([Pair("utm_id", value)]);
  }
}
