/** Small types and string helpers shared by every other module. */
module Common {

  datatype Option<+T> = None | Some(value: T)

  function Min(a: nat, b: nat): nat {
    if a < b then a else b
  }

  function Max(a: nat, b: nat): nat {
    if a < b then b else a
  }

  /** `needle` occurs in `s` starting at index `i`. */
  predicate OccursAt(s: string, needle: string, i: nat) {
    i + |needle| <= |s| && s[i..i + |needle|] == needle
  }

  /** Rust's `str::contains` for a string pattern. */
  predicate Contains(s: string, needle: string) {
    exists i :: 0 <= i <= |s| && OccursAt(s, needle, i)
  }

  /** An occurrence of `needle` at `i`, read off character by character. */
  lemma CharacterOf(s: string, needle: string, i: nat, k: nat)
    requires OccursAt(s, needle, i) && i <= k < i + |needle|
    ensures k < |s| && s[k] == needle[k - i]
  {
    assert s[i..i + |needle|][k - i] == s[k];
  }

  lemma ContainsItself(s: string)
    ensures Contains(s, s)
  {
    assert OccursAt(s, s, 0);
  }

  /** A pattern found in a slice of `s` is found in `s`. */
  lemma ContainsInPart(before: string, middle: string, after: string, needle: string)
    requires Contains(middle, needle)
    ensures Contains(before + middle + after, needle)
  {
    var i :| 0 <= i <= |middle| && OccursAt(middle, needle, i);
    assert (before + middle + after)[|before| + i..|before| + i + |needle|] == middle[i..i + |needle|];
    assert OccursAt(before + middle + after, needle, |before| + i);
  }

  /** `contains` is transitive. */
  lemma ContainsTransitive(s: string, middle: string, needle: string)
    requires Contains(s, middle) && Contains(middle, needle)
    ensures Contains(s, needle)
  {
    var i :| 0 <= i <= |s| && OccursAt(s, middle, i);
    assert s == s[..i] + middle + s[i + |middle|..];
    ContainsInPart(s[..i], middle, s[i + |middle|..], needle);
  }

  predicate IsAsciiDigit(c: char) {
    '0' <= c <= '9'
  }

  function AsciiLowerChar(c: char): char {
    if 'A' <= c <= 'Z' then c - 'A' + 'a' else c
  }

  /** Rust's `str::to_ascii_lowercase`. */
  function AsciiLower(s: string): (r: string)
    ensures |r| == |s|
    ensures forall i :: 0 <= i < |s| ==> r[i] == AsciiLowerChar(s[i])
  {
    seq(|s|, i requires 0 <= i < |s| => AsciiLowerChar(s[i]))
  }

  /** `char::is_whitespace`: the Unicode property White_Space. */
  predicate IsWhitespace(c: char) {
    var n := c as int;
    || 0x9 <= n <= 0xD || n == 0x20 || n == 0x85 || n == 0xA0 || n == 0x1680
    || 0x2000 <= n <= 0x200A || n == 0x2028 || n == 0x2029 || n == 0x202F || n == 0x205F || n == 0x3000
  }

  /** The 25 code points of that property. */
  lemma WhitespaceTable(c: char)
    ensures IsWhitespace(c) <==> c as int in {
      9, 10, 11, 12, 13, 32, 133, 160, 5760, 8192, 8193, 8194, 8195, 8196, 8197, 8198, 8199, 8200, 8201, 8202,
      8232, 8233, 8239, 8287, 12288}
  {
  }

  function TrimEnd(s: string): string {
    if s != [] && IsWhitespace(s[|s| - 1]) then TrimEnd(s[..|s| - 1]) else s
  }

  function TrimStart(s: string): string {
    if s != [] && IsWhitespace(s[0]) then TrimStart(s[1..]) else s
  }

  /** Rust's `str::trim`. */
  function Trim(s: string): string {
    TrimEnd(TrimStart(s))
  }

  predicate IsBlank(s: string) {
    forall i :: 0 <= i < |s| ==> IsWhitespace(s[i])
  }

  lemma {:induction false} TrimStartPadded(pad: string, s: string)
    requires IsBlank(pad) && (s == "" || !IsWhitespace(s[0]))
    ensures TrimStart(pad + s) == s
  {
    if pad == "" {
      assert pad + s == s;
    } else {
      assert (pad + s)[0] == pad[0] && (pad + s)[1..] == pad[1..] + s;
      TrimStartPadded(pad[1..], s);
    }
  }

  lemma {:induction false} TrimEndPadded(s: string, pad: string)
    requires IsBlank(pad) && (s == "" || !IsWhitespace(s[|s| - 1]))
    ensures TrimEnd(s + pad) == s
  {
    if pad == "" {
      assert s + pad == s;
    } else {
      var n := |s + pad| - 1;
      assert (s + pad)[n] == pad[|pad| - 1] && (s + pad)[..n] == s + pad[..|pad| - 1];
      TrimEndPadded(s, pad[..|pad| - 1]);
    }
  }

  lemma {:induction false} TrimStartParts(s: string) returns (pad: string)
    ensures s == pad + TrimStart(s) && IsBlank(pad)
    ensures TrimStart(s) == "" || !IsWhitespace(TrimStart(s)[0])
  {
    pad := "";
    if s != "" && IsWhitespace(s[0]) {
      var rest := TrimStartParts(s[1..]);
      pad := [s[0]] + rest;
    }
  }

  lemma {:induction false} TrimEndParts(s: string) returns (pad: string)
    ensures s == TrimEnd(s) + pad && IsBlank(pad)
  {
    pad := "";
    if s != "" && IsWhitespace(s[|s| - 1]) {
      var rest := TrimEndParts(s[..|s| - 1]);
      pad := rest + [s[|s| - 1]];
      assert s == s[..|s| - 1] + [s[|s| - 1]];
    }
  }

  /** A text that neither begins nor ends with white space is what trimming leaves of all its paddings. */
  lemma TrimPadded(before: string, s: string, after: string)
    requires IsBlank(before) && IsBlank(after)
    requires s != "" && !IsWhitespace(s[0]) && !IsWhitespace(s[|s| - 1])
    ensures Trim(before + s + after) == s
  {
    assert before + s + after == before + (s + after);
    TrimStartPadded(before, s + after);
    TrimEndPadded(s, after);
  }

  lemma TrimParts(s: string) returns (before: string, after: string)
    ensures s == before + Trim(s) + after && IsBlank(before) && IsBlank(after)
  {
    before := TrimStartParts(s);
    after := TrimEndParts(TrimStart(s));
    assert before + (Trim(s) + after) == before + Trim(s) + after;
  }

  /** The first index of `c`, or the length when it does not occur. */
  function IndexOf(s: string, c: char): (i: nat)
    ensures i <= |s|
    ensures i < |s| ==> s[i] == c
    ensures forall j :: 0 <= j < i ==> s[j] != c
  {
    if s == [] || s[0] == c then 0 else 1 + IndexOf(s[1..], c)
  }

  function Join(parts: seq<string>, separator: char): string {
    if parts == [] then ""
    else if |parts| == 1 then parts[0]
    else parts[0] + [separator] + Join(parts[1..], separator)
  }

  lemma JoinCons(part: string, rest: seq<string>, separator: char)
    ensures Join([part] + rest, separator)
         == part + if rest == [] then "" else [separator] + Join(rest, separator)
  {
    assert ([part] + rest)[1..] == rest;
  }

  lemma IndexInConcat(a: string, b: string, c: char)
    requires c !in a
    ensures IndexOf(a + b, c) == |a| + IndexOf(b, c)
  {
    var i := IndexOf(a + b, c);
    assert forall j :: 0 <= j < |a| ==> (a + b)[j] == a[j] && a[j] in a;
    assert forall j :: 0 <= j < |b| ==> (a + b)[|a| + j] == b[j];
  }
}
