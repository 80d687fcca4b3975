/** The shared truncation primitives: the byte family, the character family and the word-aware cap. */
module Truncate {
  import opened Common
  import opened Utf8

  // ----- The byte family -----

  /**
   * `bytes` is the storage of a `str` whose characters are `text`. The result is the greatest
   * character boundary not above `idx`, at most three bytes back.
   */
  method FloorCharBoundary(bytes: seq<byte>, ghost text: string, idx: nat) returns (r: nat)
    requires bytes == Encode(text)
    ensures r <= |bytes| && IsCharBoundary(bytes, r)
    ensures |bytes| <= idx ==> r == |bytes|
    ensures idx < |bytes| ==> r <= idx < r + 4 && forall j :: r < j <= idx ==> !IsCharBoundary(bytes, j)
  {
    if idx >= |bytes| {
      return |bytes|;
    }
    var i: nat := idx;
    while i > 0 && !IsCharBoundary(bytes, i)
      invariant i <= idx
      invariant forall j :: i < j <= idx ==> !IsCharBoundary(bytes, j)
    {
      i := i - 1;
    }
    r := i;
    NextBoundaryWithinFour(text, r);
  }

  /** From a boundary short of the end, another boundary follows within four bytes. */
  lemma NextBoundaryWithinFour(s: string, i: nat)
    requires i < |Encode(s)| && IsCharBoundary(Encode(s), i)
    ensures exists j :: i < j <= i + 4 && j <= |Encode(s)| && IsCharBoundary(Encode(s), j)
  {
    var k := BoundaryIsPrefixEnd(s, i);
    assert s[..|s|] == s;
    assert k < |s|;
    PrefixEndIsBoundary(s, k + 1);
    assert s[..k + 1] == s[..k] + [s[k]];
    EncodeConcat(s[..k], [s[k]]);
    assert Encode([s[k]]) == EncodeChar(s[k]) + Encode([s[k]][1..]);
    EncodeCharShape(s[k]);
    assert IsCharBoundary(Encode(s), |Encode(s[..k + 1])|);
  }

  /** How many whole characters fit into `max` bytes. */
  function FitChars(s: string, max: nat): (k: nat)
    ensures k <= |s|
  {
    if s == [] || |EncodeChar(s[0])| > max then 0
    else 1 + FitChars(s[1..], max - |EncodeChar(s[0])|)
  }

  lemma {:induction false} FitCharsIsGreatest(s: string, max: nat)
    ensures |Encode(s[..FitChars(s, max)])| <= max
    ensures forall k :: FitChars(s, max) < k <= |s| ==> |Encode(s[..k])| > max
  {
    var f := FitChars(s, max);
    if s == [] || |EncodeChar(s[0])| > max {
      assert s[..f] == [];
      forall k | f < k <= |s| ensures |Encode(s[..k])| > max {
        assert s[..k][0] == s[0];
      }
    } else {
      var rest := max - |EncodeChar(s[0])|;
      FitCharsIsGreatest(s[1..], rest);
      assert s[..f][1..] == s[1..][..f - 1];
      forall k | f < k <= |s| ensures |Encode(s[..k])| > max {
        assert s[..k][1..] == s[1..][..k - 1];
      }
    }
  }

  lemma PrefixLengthsGrow(s: string, j: nat, k: nat)
    requires j <= |s| && k <= |s|
    ensures j < k ==> |Encode(s[..j])| < |Encode(s[..k])|
  {
    if j < k {
      assert s[..k] == s[..j] + s[j..k];
      EncodeConcat(s[..j], s[j..k]);
      EncodeLength(s[j..k]);
    }
  }

  /** The slice up to the floored boundary holds the most characters that fit, and never splits one. */
  method TruncateToBytes(bytes: seq<byte>, ghost text: string, max: nat) returns (out: seq<byte>)
    requires bytes == Encode(text)
    ensures out == Encode(text[..FitChars(text, max)])
  {
    var cut := FloorCharBoundary(bytes, text, max);
    out := bytes[..cut];
    ghost var k := BoundaryIsPrefixEnd(text, cut);
    ghost var f := FitChars(text, max);
    FitCharsIsGreatest(text, max);
    PrefixLengthsGrow(text, k, f);
    PrefixEndIsBoundary(text, f);
    assert |Encode(text[..f])| <= cut <= max || cut == |bytes| <= max;
    assert k == f;
    EncodePrefix(text, f);
  }

  /** Truncating twice is truncating once to the smaller cap (bytes). */
  lemma {:induction false} ByteCapsCompose(s: string, m: nat, n: nat)
    ensures s[..FitChars(s, m)][..FitChars(s[..FitChars(s, m)], n)] == s[..FitChars(s, Min(m, n))]
  {
    var f := FitChars(s, m);
    if s != [] && |EncodeChar(s[0])| <= m {
      assert s[..f][1..] == s[1..][..f - 1];
      if |EncodeChar(s[0])| <= n {
        ByteCapsCompose(s[1..], m - |EncodeChar(s[0])|, n - |EncodeChar(s[0])|);
        var t := s[1..];
        var g := FitChars(t, m - |EncodeChar(s[0])|);
        assert s[..f] == [s[0]] + t[..g];
        var h := FitChars(t[..g], n - |EncodeChar(s[0])|);
        assert s[..f][..h + 1] == [s[0]] + t[..g][..h];
      }
    }
  }

  // ----- The character family -----

  /** The byte offset of each character: the first halves of `char_indices`. */
  function CharOffset(s: string, k: nat): nat
    requires k <= |s|
  {
    |Encode(s[..k])|
  }

  /** `char_indices().nth(n)`, as the byte offset it reports. */
  function NthOffset(s: string, n: nat): Option<nat> {
    if n < |s| then Some(CharOffset(s, n)) else None
  }

  /** On the bytes: slice at the offset of character number `max`, or keep everything. */
  function TruncateToChars(s: string, max: nat): seq<byte>
  {
    match NthOffset(s, max)
    case Some(cut) => (EncodePrefix(s, max); Encode(s)[..cut])
    case None => Encode(s)
  }

  function FirstChars(s: string, max: nat): string {
    s[..Min(max, |s|)]
  }

  /** The byte slice decodes to the first `max` characters. */
  lemma TruncateToCharsIsPrefix(s: string, max: nat)
    ensures TruncateToChars(s, max) == Encode(FirstChars(s, max))
    ensures |TruncateToChars(s, max)| == |Encode(s)| <==> |s| <= max
  {
    if max < |s| {
      EncodePrefix(s, max);
      EncodeLength(s[max..]);
    } else {
      assert FirstChars(s, max) == s;
    }
  }

  /** Truncating twice is truncating once to the smaller cap (characters). */
  lemma CharCapsCompose(s: string, m: nat, n: nat)
    ensures TruncateToChars(FirstChars(s, m), n) == TruncateToChars(s, Min(m, n))
  {
    TruncateToCharsIsPrefix(FirstChars(s, m), n);
    TruncateToCharsIsPrefix(s, Min(m, n));
    assert FirstChars(FirstChars(s, m), n) == FirstChars(s, Min(m, n));
  }

  predicate ExceedsChars(s: string, max: nat) {
    NthOffset(s, max).Some?
  }

  /** A byte cap never keeps more characters than the same character cap. */
  lemma FamiliesCompared(s: string, max: nat)
    ensures FitChars(s, max) <= |FirstChars(s, max)|
    ensures ExceedsChars(s, max) ==> |Encode(s)| > max
  {
    FitCharsIsGreatest(s, max);
    EncodeLength(s[..FitChars(s, max)]);
    EncodeLength(s);
  }

  // ----- The word-aware cap -----

  /** `rfind(char::is_whitespace)`, as a character index. */
  function LastWhitespace(s: string): (r: Option<nat>)
    ensures r.Some? ==> r.value < |s|
  {
    if s == [] then None
    else if IsWhitespace(s[|s| - 1]) then Some(|s| - 1)
    else LastWhitespace(s[..|s| - 1])
  }

  /** The shared implementation: it compares the byte lengths of the prefix and the text. */
  function TruncateAtWord(text: string, max: nat): string {
    if max == 0 then ""
    else
      var prefix := FirstChars(text, max);
      if |Encode(prefix)| == |Encode(text)| then text
      else match LastWhitespace(prefix)
           case Some(pos) => TrimEnd(prefix[..pos])
           case None => prefix
  }

  /** The copy that lived in the browser module: it counted all characters first. */
  function BrowserCopy(text: string, max: nat): string {
    if max == 0 then ""
    else if |text| <= max then text
    else
      var prefix := text[..max];
      match LastWhitespace(prefix)
      case Some(pos) => TrimEnd(prefix[..pos])
      case None => prefix
  }

  /** The copy that lived in the readability module: it asked for character number `max`. */
  function ReadabilityCopy(text: string, max: nat): string {
    if max == 0 then ""
    else match NthOffset(text, max)
         case None => text
         case Some(_) =>
           var prefix := FirstChars(text, max);
           match LastWhitespace(prefix)
           case Some(pos) => TrimEnd(prefix[..pos])
           case None => prefix
  }

  lemma ConsolidationKeptBothCopies(text: string, max: nat)
    ensures TruncateAtWord(text, max) == BrowserCopy(text, max) == ReadabilityCopy(text, max)
  {
    TruncateToCharsIsPrefix(text, max);
  }

  lemma {:induction false} LastWhitespaceSpec(s: string)
    ensures LastWhitespace(s).Some? ==> IsWhitespace(s[LastWhitespace(s).value])
    ensures forall i :: 0 <= i < |s| && (LastWhitespace(s).None? || LastWhitespace(s).value < i) ==> !IsWhitespace(s[i])
  {
    if s != [] && !IsWhitespace(s[|s| - 1]) {
      LastWhitespaceSpec(s[..|s| - 1]);
    }
  }

  lemma {:induction false} TrimEndSpec(s: string)
    ensures TrimEnd(s) <= s
    ensures TrimEnd(s) != [] ==> !IsWhitespace(TrimEnd(s)[|TrimEnd(s)| - 1])
    ensures forall i :: |TrimEnd(s)| <= i < |s| ==> IsWhitespace(s[i])
  {
    if s != [] && IsWhitespace(s[|s| - 1]) {
      TrimEndSpec(s[..|s| - 1]);
    }
  }

  /** From `cut` to `pos` there is only whitespace, and from there to `max` none. */
  predicate GapThenWord(text: string, cut: nat, pos: nat, max: nat)
    requires max <= |text|
  {
    && cut <= pos < max
    && (forall i :: cut <= i <= pos ==> IsWhitespace(text[i]))
    && (forall i :: pos < i < max ==> !IsWhitespace(text[i]))
  }

  /** `cut` ends a run of whole words: what follows it within the cap is whitespace, then one unfinished word. */
  ghost predicate CutAtWord(text: string, cut: nat, max: nat)
    requires cut <= max <= |text|
  {
    && (cut > 0 ==> !IsWhitespace(text[cut - 1]))
    && exists pos: nat :: GapThenWord(text, cut, pos, max)
  }

  /**
   * The result is a prefix of at most `max` characters. It is the whole text exactly when the text
   * fits; otherwise it stops just before the last whitespace within the cap, or, when the first
   * `max` characters hold no whitespace, is those characters.
   */
  lemma TruncateAtWordSpec(text: string, max: nat)
    ensures var r := TruncateAtWord(text, max);
            && r <= text && |r| <= max
            && (|text| <= max ==> r == text)
            && (max > 0 && |text| > max ==>
                  if forall i :: 0 <= i < max ==> !IsWhitespace(text[i]) then r == text[..max]
                  else CutAtWord(text, |r|, max))
  {
    ConsolidationKeptBothCopies(text, max);
    if max > 0 && |text| > max {
      var prefix := text[..max];
      LastWhitespaceSpec(prefix);
      if LastWhitespace(prefix).Some? {
        CutBeforeLastWhitespace(text, max, LastWhitespace(prefix).value);
      }
      assert forall i :: 0 <= i < max ==> prefix[i] == text[i];
    }
  }

  lemma CutBeforeLastWhitespace(text: string, max: nat, pos: nat)
    requires pos < max < |text| && IsWhitespace(text[pos])
    requires forall i :: pos < i < max ==> !IsWhitespace(text[i])
    ensures var r := TrimEnd(text[..max][..pos]);
            r <= text && |r| <= pos && CutAtWord(text, |r|, max)
  {
    var head := text[..max][..pos];
    var r := TrimEnd(head);
    TrimEndSpec(head);
    assert forall i :: |r| <= i < pos ==> IsWhitespace(head[i]) && head[i] == text[i];
    assert GapThenWord(text, |r|, pos, max);
    assert |r| > 0 ==> r[|r| - 1] == text[|r| - 1];
  }

  /** There is only one such cut, so the description above determines the result. */
  lemma CutAtWordUnique(text: string, a: nat, b: nat, max: nat)
    requires a <= max <= |text| && b <= max
    requires CutAtWord(text, a, max) && CutAtWord(text, b, max)
    ensures a == b
  {
    var p: nat :| GapThenWord(text, a, p, max);
    var q: nat :| GapThenWord(text, b, q, max);
    assert IsWhitespace(text[p]) && IsWhitespace(text[q]);
    assert p == q;
    assert forall i :: a <= i <= p ==> IsWhitespace(text[i]);
    assert forall i :: b <= i <= p ==> IsWhitespace(text[i]);
    assert a == b || a <= b - 1 <= p || b <= a - 1 <= p;
  }
}
