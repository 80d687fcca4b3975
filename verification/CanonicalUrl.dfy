/** Canonicalisation of result URLs: what makes two of them the same. */
module CanonicalUrl {
  import opened Common
  import opened Ordering
  import opened Utf8
  import opened FormUrlencoded
  import opened UrlPath

  /** `userinfo` ends in `@` and `port` starts with `:` when they are there at all. */
  datatype Authority = Authority(userinfo: string, host: string, port: string)

  datatype Url = Url(scheme: string, authority: Option<Authority>, path: string,
                     query: Option<string>, fragment: Option<string>)

  /**
   * The URL parser and the text decoder are the library's. Whether a drive in the path of a `file` URL
   * makes the parser drop the host depends on the version of the WHATWG URL Standard it follows.
   */
  datatype Library = Library(parse: string -> Option<Url>, decode: Decoder, drivesDropHosts: bool)

  function AuthorityText(a: Authority): string {
    a.userinfo + a.host + a.port
  }

  function QueryText(q: Option<string>): string {
    if q.Some? then "?" + q.value else ""
  }

  function Serialize(u: Url): string {
    u.scheme + ":"
    + (if u.authority.Some? then "//" + AuthorityText(u.authority.value) else "")
    + u.path + QueryText(u.query)
    + if u.fragment.Some? then "#" + u.fragment.value else ""
  }

  // ----- canonicalize_url -----

  const TRACKING: set<string> := {
    "utm_source", "utm_medium", "utm_campaign", "utm_term", "utm_content",
    "fbclid", "gclid", "ref", "mc_cid", "mc_eid"
  }

  predicate IsTracking(name: string) {
    name in TRACKING
  }

  function DropTracking(pairs: seq<Pair>): seq<Pair> {
    if pairs == [] then []
    else (if IsTracking(pairs[0].name) then [] else [pairs[0]]) + DropTracking(pairs[1..])
  }

  function QueryPairs(lib: Library, u: Url): seq<Pair> {
    if u.query.Some? then ParseQuery(u.query.value, lib.decode) else []
  }

  /** The query pairs that survive, in their original order. */
  function Kept(lib: Library, u: Url): seq<Pair> {
    DropTracking(QueryPairs(lib, u))
  }

  predicate NameBefore(a: Pair, b: Pair) {
    StrLess(a.name, b.name)
  }

  function LowerHost(a: Option<Authority>): Option<Authority> {
    if a.Some? then Some(a.value.(host := AsciiLower(a.value.host))) else None
  }

  function CanonicalQuery(pairs: seq<Pair>): Option<string> {
    if pairs == [] then None else Some(SerializeQuery(SortBy(NameBefore, pairs)))
  }

  /** The edits made on the parsed URL. */
  function Cleaned(lib: Library, u: Url): Url {
    Url(AsciiLower(u.scheme), LowerHost(u.authority), u.path, CanonicalQuery(Kept(lib, u)), None)
  }

  /** Where `://` first occurs, or the length. */
  function FindMark(s: string): (i: nat)
    ensures i <= |s|
    ensures i < |s| ==> i + 3 <= |s| && s[i..i + 3] == "://"
  {
    if |s| < 3 then |s| else if s[..3] == "://" then 0 else 1 + FindMark(s[1..])
  }

  /** From the host on: normalise up to the first question mark, keep the rest. */
  function TidyTail(tail: string): string {
    var pathEnd := IndexOf(tail, '?');
    NormPath(tail[..pathEnd]) + tail[pathEnd..]
  }

  /** The edits made on the text; the host ends at the first slash. */
  function TidySlashes(s: string): string {
    var mark := FindMark(s);
    if mark == |s| then s
    else
      var rest := s[mark + 3..];
      var hostEnd := IndexOf(rest, '/');
      s[..mark + 3] + rest[..hostEnd] + TidyTail(rest[hostEnd..])
  }

  function Canonical(lib: Library, raw: string): string {
    match lib.parse(raw)
    case None => raw
    case Some(u) => TidySlashes(Serialize(Cleaned(lib, u)))
  }

  /** The serialiser loop: pairs are appended one by one. */
  method SerializePairs(pairs: seq<Pair>) returns (text: string)
    ensures text == SerializeQuery(pairs)
  {
    text := "";
    for i := 0 to |pairs|
      invariant text == SerializeQuery(pairs[..i])
    {
      assert pairs[..i + 1] == pairs[..i] + [pairs[i]];
      SerializeSnoc(pairs[..i], pairs[i]);
      if text != "" {
        text := text + "&";
      }
      text := text + EncodePair(pairs[i]);
    }
    assert pairs[..|pairs|] == pairs;
  }

  method CanonicalizeUrl(lib: Library, raw: string) returns (out: string)
    ensures out == Canonical(lib, raw)
  {
    var parsed := lib.parse(raw);
    if parsed.None? {
      return raw;
    }
    var url := parsed.value;
    ghost var u := url;
    if url.authority.Some? {
      url := url.(authority := LowerHost(url.authority));
    }
    url := url.(scheme := AsciiLower(url.scheme));
    url := url.(fragment := None);
    var pairs := DropTracking(QueryPairs(lib, url));
    if pairs != [] {
      var sorted := SortBy(NameBefore, pairs);
      var query := SerializePairs(sorted);
      url := url.(query := Some(query));
    } else {
      url := url.(query := None);
    }
    assert url == Cleaned(lib, u);
    out := TidySlashes(Serialize(url));
  }
}
