/** `application/x-www-form-urlencoded` as section 5 of the WHATWG URL Standard defines it. */
module FormUrlencoded {
  import opened Common
  import opened Utf8

  datatype Pair = Pair(name: string, value: string)

  /** How bytes become text (`from_utf8_lossy`): arbitrary, except that it reads UTF-8. */
  type Decoder = seq<byte> -> string

  ghost predicate ReadsUtf8(decode: Decoder) {
    forall s: string :: decode(Encode(s)) == s
  }

  // ----- Percent-encoding -----

  predicate IsUnreserved(c: char) {
    c == '*' || c == '-' || c == '.' || c == '_' || '0' <= c <= '9' || 'A' <= c <= 'Z' || 'a' <= c <= 'z'
  }

  function HexDigit(n: nat): char
    requires n < 16
  {
    if n < 10 then '0' + n as char else 'A' + (n - 10) as char
  }

  function HexValue(c: char): Option<nat> {
    if '0' <= c <= '9' then Some(c as int - '0' as int)
    else if 'A' <= c <= 'F' then Some(c as int - 'A' as int + 10)
    else if 'a' <= c <= 'f' then Some(c as int - 'a' as int + 10)
    else None
  }

  /** The two cases of sixteen digits. */
  lemma HexValueExactly(c: char, v: nat)
    requires v < 16
    ensures HexValue(c) == Some(v) <==> c == "0123456789ABCDEF"[v] || c == "0123456789abcdef"[v]
    ensures HexDigit(v) == "0123456789ABCDEF"[v]
  {
  }

  /** Section 1.3 of the WHATWG URL Standard: all but ASCII letters, digits and four marks are encoded. */
  lemma UnreservedExactly(c: char)
    ensures IsUnreserved(c) <==>
      c in "0123456789" || c in "ABCDEFGHIJKLMNOPQRSTUVWXYZ" || c in "abcdefghijklmnopqrstuvwxyz" || c in "*-._"
  {
  }

  function EncodeByte(b: byte): string {
    if b == 0x20 then "+"
    else if b < 0x80 && IsUnreserved(b as char) then [b as char]
    else ['%', HexDigit(b / 16), HexDigit(b % 16)]
  }

  function PercentEncode(bytes: seq<byte>): string {
    if bytes == [] then "" else EncodeByte(bytes[0]) + PercentEncode(bytes[1..])
  }

  /** The two digits after a percent sign, when both are there. */
  function Escape(s: string): Option<byte> {
    if |s| >= 3 && s[0] == '%' && HexValue(s[1]).Some? && HexValue(s[2]).Some? then
      EscapeFits(s[1], s[2]);
      Some(16 * HexValue(s[1]).value + HexValue(s[2]).value)
    else None
  }

  lemma EscapeFits(c: char, d: char)
    requires HexValue(c).Some? && HexValue(d).Some?
    ensures HexValue(c).value < 16 && HexValue(d).value < 16
  {
  }

  /** A plus is a space, a valid escape its byte, anything else stands for itself. */
  function PercentDecode(s: string): seq<byte> {
    if s == [] then []
    else if s[0] == '+' then [0x20] + PercentDecode(s[1..])
    else if Escape(s).Some? then [Escape(s).value] + PercentDecode(s[3..])
    else EncodeChar(s[0]) + PercentDecode(s[1..])
  }

  lemma DecodeOneByte(b: byte, rest: string)
    ensures PercentDecode(EncodeByte(b) + rest) == [b] + PercentDecode(rest)
  {
    var e := EncodeByte(b);
    var s := e + rest;
    assert s[|e|..] == rest;
    if b != 0x20 && !(b < 0x80 && IsUnreserved(b as char)) {
      assert HexValue(HexDigit(b / 16)) == Some(b / 16) && HexValue(HexDigit(b % 16)) == Some(b % 16);
      assert Escape(s) == Some(b);
    } else if b != 0x20 {
      assert s[0] == b as char && Escape(s) == None;
      assert EncodeChar(s[0]) == [b];
    }
  }

  lemma {:induction false} PercentRoundTrip(bytes: seq<byte>)
    ensures PercentDecode(PercentEncode(bytes)) == bytes
  {
    if bytes != [] {
      PercentRoundTrip(bytes[1..]);
      DecodeOneByte(bytes[0], PercentEncode(bytes[1..]));
    }
  }

  /** None of the characters that structure a query or a URL survive encoding. */
  predicate IsInert(c: char) {
    c == '+' || c == '%' || IsUnreserved(c)
  }

  lemma {:induction false} EncodedIsInert(bytes: seq<byte>)
    ensures forall i :: 0 <= i < |PercentEncode(bytes)| ==> IsInert(PercentEncode(bytes)[i])
  {
    if bytes != [] {
      EncodedIsInert(bytes[1..]);
    }
  }

  // ----- Pairs -----

  function EncodePair(p: Pair): (s: string)
    ensures s != ""
  {
    PercentEncode(Encode(p.name)) + "=" + PercentEncode(Encode(p.value))
  }

  function EncodePairs(pairs: seq<Pair>): seq<string> {
    seq(|pairs|, i requires 0 <= i < |pairs| => EncodePair(pairs[i]))
  }

  function SerializeQuery(pairs: seq<Pair>): string {
    Join(EncodePairs(pairs), '&')
  }

  /** The non-empty pieces between ampersands. */
  function Pieces(s: string): seq<string> {
    if s == [] then []
    else
      var i := IndexOf(s, '&');
      (if i == 0 then [] else [s[..i]]) + if i < |s| then Pieces(s[i + 1..]) else []
  }

  function ParsePiece(piece: string, decode: Decoder): Pair {
    var i := IndexOf(piece, '=');
    Pair(decode(PercentDecode(piece[..i])), decode(PercentDecode(if i < |piece| then piece[i + 1..] else "")))
  }

  function ParsePieces(pieces: seq<string>, decode: Decoder): seq<Pair> {
    seq(|pieces|, i requires 0 <= i < |pieces| => ParsePiece(pieces[i], decode))
  }

  function ParseQuery(s: string, decode: Decoder): seq<Pair> {
    ParsePieces(Pieces(s), decode)
  }

  lemma ParseSplitsAtEquals(name: string, value: string, decode: Decoder)
    requires '=' !in name
    ensures ParsePiece(name + "=" + value, decode) == Pair(decode(PercentDecode(name)), decode(PercentDecode(value)))
  {
    var s := name + "=" + value;
    assert s == name + ("=" + value);
    IndexInConcat(name, "=" + value, '=');
    assert s[..|name|] == name && s[|name| + 1..] == value;
  }

  lemma EncodedHasNoEquals(bytes: seq<byte>)
    ensures '=' !in PercentEncode(bytes)
  {
    EncodedIsInert(bytes);
  }

  lemma PairRoundTrip(p: Pair, decode: Decoder)
    requires ReadsUtf8(decode)
    ensures ParsePiece(EncodePair(p), decode) == p
  {
    EncodedHasNoEquals(Encode(p.name));
    ParseSplitsAtEquals(PercentEncode(Encode(p.name)), PercentEncode(Encode(p.value)), decode);
    PercentRoundTrip(Encode(p.name));
    PercentRoundTrip(Encode(p.value));
  }

  lemma EncodedPairHasNoAmpersand(p: Pair)
    ensures forall i :: 0 <= i < |EncodePair(p)| ==> IsInert(EncodePair(p)[i]) || EncodePair(p)[i] == '='
  {
    EncodedIsInert(Encode(p.name));
    EncodedIsInert(Encode(p.value));
  }

  /** One piece is split off at the first ampersand. */
  lemma FirstPiece(part: string, tail: string)
    requires part != "" && '&' !in part
    ensures Pieces(part) == [part]
    ensures Pieces(part + "&" + tail) == [part] + Pieces(tail)
  {
    IndexInConcat(part, "", '&');
    assert part + "" == part && part[..|part|] == part;
    var s := part + "&" + tail;
    assert s == part + ("&" + tail);
    IndexInConcat(part, "&" + tail, '&');
    assert s[..|part|] == part && s[|part| + 1..] == tail;
  }

  lemma {:induction false} PiecesOfJoin(parts: seq<string>)
    requires forall p :: p in parts ==> p != "" && forall i :: 0 <= i < |p| ==> p[i] != '&'
    ensures Pieces(Join(parts, '&')) == parts
  {
    if parts != [] {
      hide Pieces, Join;
      var part, rest := parts[0], parts[1..];
      assert parts == [part] + rest;
      assert part in parts;
      JoinCons(part, rest, '&');
      FirstPiece(part, Join(rest, '&'));
      PiecesOfJoin(rest);
    }
  }

  /** Parsing what was serialised gives the pairs back, in order. */
  lemma ParseSerialize(pairs: seq<Pair>, decode: Decoder)
    requires ReadsUtf8(decode)
    ensures ParseQuery(SerializeQuery(pairs), decode) == pairs
  {
    var parts := EncodePairs(pairs);
    forall p | p in parts ensures p != "" && forall i :: 0 <= i < |p| ==> p[i] != '&' {
      var j :| 0 <= j < |parts| && parts[j] == p;
      EncodedPairHasNoAmpersand(pairs[j]);
    }
    PiecesOfJoin(parts);
    forall i | 0 <= i < |pairs| ensures ParseQuery(SerializeQuery(pairs), decode)[i] == pairs[i] {
      PairRoundTrip(pairs[i], decode);
    }
  }

  lemma {:induction false} JoinKeeps(parts: seq<string>, i: nat)
    requires i < |Join(parts, '&')|
    ensures Join(parts, '&')[i] == '&' || exists p :: p in parts && Join(parts, '&')[i] in p
  {
    assert parts != [];
    assert parts == [parts[0]] + parts[1..];
    JoinCons(parts[0], parts[1..], '&');
    if i < |parts[0]| {
      assert Join(parts, '&')[i] == parts[0][i];
      assert parts[0] in parts;
    } else if i > |parts[0]| {
      JoinKeeps(parts[1..], i - |parts[0]| - 1);
    }
  }

  /** A serialised query cannot end the query or start a path or authority. */
  lemma SerializedIsQueryText(pairs: seq<Pair>)
    ensures forall c :: c in SerializeQuery(pairs) ==> IsInert(c) || c == '=' || c == '&'
  {
    var s := SerializeQuery(pairs);
    forall c | c in s ensures IsInert(c) || c == '=' || c == '&' {
      var i :| 0 <= i < |s| && s[i] == c;
      JoinKeeps(EncodePairs(pairs), i);
      if c != '&' {
        var p :| p in EncodePairs(pairs) && c in p;
        var j :| 0 <= j < |pairs| && EncodePair(pairs[j]) == p;
        EncodedPairHasNoAmpersand(pairs[j]);
      }
    }
  }

  /** Appending one pair, as the serialiser's `append_pair` does. */
  lemma {:induction false} SerializeSnoc(pairs: seq<Pair>, p: Pair)
    ensures SerializeQuery(pairs + [p])
         == if pairs == [] then EncodePair(p) else SerializeQuery(pairs) + "&" + EncodePair(p)
    ensures SerializeQuery(pairs) == "" <==> pairs == []
  {
    assert EncodePairs(pairs + [p]) == EncodePairs(pairs) + [EncodePair(p)];
    JoinSnoc(EncodePairs(pairs), EncodePair(p));
    if pairs != [] {
      JoinCons(EncodePair(pairs[0]), EncodePairs(pairs)[1..], '&');
      assert EncodePairs(pairs) == [EncodePair(pairs[0])] + EncodePairs(pairs)[1..];
    }
  }

  lemma {:induction false} JoinSnoc(parts: seq<string>, last: string)
    ensures Join(parts + [last], '&') == if parts == [] then last else Join(parts, '&') + "&" + last
  {
    if parts == [] {
      assert parts + [last] == [last];
    } else {
      assert (parts + [last])[1..] == parts[1..] + [last];
      JoinSnoc(parts[1..], last);
      JoinCons(parts[0], parts[1..], '&');
      JoinCons(parts[0], parts[1..] + [last], '&');
      assert parts == [parts[0]] + parts[1..];
      assert parts + [last] == [parts[0]] + (parts[1..] + [last]);
    }
  }
}
