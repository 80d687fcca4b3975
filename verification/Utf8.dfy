/** UTF-8 as section 3 of RFC 3629 defines it: `str` is a sequence of scalars stored as bytes. */
module Utf8 {
  import opened Common

  type byte = n: int | 0 <= n < 256

  function EncodeChar(c: char): seq<byte> {
    var n := c as int;
    if n < 0x80 then [n]
    else if n < 0x800 then [0xC0 + n / 64, 0x80 + n % 64]
    else if n < 0x10000 then [0xE0 + n / 4096, 0x80 + n / 64 % 64, 0x80 + n % 64]
    else [0xF0 + n / 262144, 0x80 + n / 4096 % 64, 0x80 + n / 64 % 64, 0x80 + n % 64]
  }

  predicate IsContinuation(b: byte) {
    0x80 <= b < 0xC0
  }

  function Encode(s: string): seq<byte> {
    if s == [] then [] else EncodeChar(s[0]) + Encode(s[1..])
  }

  /** Rust's `is_char_boundary`. */
  predicate IsCharBoundary(bytes: seq<byte>, i: nat) {
    i == 0 || i == |bytes| || (i < |bytes| && !IsContinuation(bytes[i]))
  }

  /** One to four bytes, of which exactly the first is not a continuation byte. */
  lemma EncodeCharShape(c: char)
    ensures var e := EncodeChar(c);
            && 1 <= |e| <= 4 && !IsContinuation(e[0])
            && forall i :: 1 <= i < |e| ==> IsContinuation(e[i])
  {
  }

  lemma {:induction false} EncodeConcat(a: string, b: string)
    ensures Encode(a + b) == Encode(a) + Encode(b)
  {
    if a == [] {
      assert a + b == b;
    } else {
      assert (a + b)[1..] == a[1..] + b;
      EncodeConcat(a[1..], b);
    }
  }

  lemma EncodePrefix(s: string, k: nat)
    requires k <= |s|
    ensures Encode(s) == Encode(s[..k]) + Encode(s[k..])
  {
    assert s == s[..k] + s[k..];
    EncodeConcat(s[..k], s[k..]);
  }

  lemma {:induction false} EncodeLength(s: string)
    ensures |s| <= |Encode(s)| <= 4 * |s|
  {
    if s != [] {
      EncodeCharShape(s[0]);
      EncodeLength(s[1..]);
    }
  }

  /** Different texts have different encodings, so prefixes cut at equal offsets are equal. */
  lemma {:induction false} EncodeInjective(a: string, b: string)
    requires Encode(a) == Encode(b)
    ensures a == b
  {
    EncodeLength(a);
    EncodeLength(b);
    if a != [] && b != [] {
      EncodeCharInjective(a[0], b[0], Encode(a[1..]), Encode(b[1..]));
      EncodeInjective(a[1..], b[1..]);
      assert a == [a[0]] + a[1..] && b == [b[0]] + b[1..];
    }
  }

  /** UTF-8 is a prefix code: equal byte strings start with the same character. */
  lemma EncodeCharInjective(c: char, d: char, x: seq<byte>, y: seq<byte>)
    requires EncodeChar(c) + x == EncodeChar(d) + y
    ensures c == d && x == y
  {
    var e, f := EncodeChar(c), EncodeChar(d);
    EncodeCharShape(c);
    EncodeCharShape(d);
    assert e[0] == (e + x)[0] == (f + y)[0] == f[0];
    LeadByteGivesLength(c);
    LeadByteGivesLength(d);
    assert |e| == |f|;
    assert e == (e + x)[..|e|] && f == (f + y)[..|f|];
    assert x == (e + x)[|e|..] && y == (f + y)[|f|..];
    SameBytesSameChar(c, d);
  }

  lemma LeadByteGivesLength(c: char)
    ensures var e := EncodeChar(c);
            |e| == if e[0] < 0x80 then 1 else if e[0] < 0xE0 then 2 else if e[0] < 0xF0 then 3 else 4
  {
  }

  lemma SameBytesSameChar(c: char, d: char)
    requires EncodeChar(c) == EncodeChar(d)
    ensures c == d
  {
    LeadByteGivesLength(c);
    LeadByteGivesLength(d);
    var e, f := EncodeChar(c), EncodeChar(d);
    assert forall i :: 0 <= i < |e| ==> e[i] == f[i];
    DecodeChar(c);
    DecodeChar(d);
  }

  function DecodeBytes(e: seq<byte>): int
    requires 1 <= |e| <= 4
  {
    var b := seq(|e|, i requires 0 <= i < |e| => e[i] as int);
    if |e| == 1 then b[0]
    else if |e| == 2 then (b[0] - 0xC0) * 64 + (b[1] - 0x80)
    else if |e| == 3 then (b[0] - 0xE0) * 4096 + (b[1] - 0x80) * 64 + (b[2] - 0x80)
    else (b[0] - 0xF0) * 262144 + (b[1] - 0x80) * 4096 + (b[2] - 0x80) * 64 + (b[3] - 0x80)
  }

  /** The scalar can be read back from the bytes. */
  lemma DecodeChar(c: char)
    ensures DecodeBytes(EncodeChar(c)) == c as int
  {
    var n := c as int;
    assert n / 4096 == n / 64 / 64 && n / 262144 == n / 4096 / 64;
  }

  /** The character boundaries are exactly the offsets at which some prefix of the text ends. */
  lemma {:induction false} BoundaryIsPrefixEnd(s: string, i: nat) returns (k: nat)
    requires i <= |Encode(s)| && IsCharBoundary(Encode(s), i)
    ensures k <= |s| && i == |Encode(s[..k])|
  {
    if i == 0 {
      k := 0;
      assert s[..0] == [];
    } else {
      var head := EncodeChar(s[0]);
      EncodeCharShape(s[0]);
      assert forall j :: 0 <= j < |head| ==> Encode(s)[j] == head[j];
      if i < |head| {
        assert false;
      }
      var rest := Encode(s[1..]);
      if i < |Encode(s)| {
        assert Encode(s)[i] == rest[i - |head|];
      }
      k := BoundaryIsPrefixEnd(s[1..], i - |head|);
      k := k + 1;
      assert s[..k][1..] == s[1..][..k - 1];
    }
  }

  lemma PrefixEndIsBoundary(s: string, k: nat)
    requires k <= |s|
    ensures |Encode(s[..k])| <= |Encode(s)|
    ensures IsCharBoundary(Encode(s), |Encode(s[..k])|)
  {
    EncodePrefix(s, k);
    if k < |s| {
      EncodeCharShape(s[k]);
      assert Encode(s[k..]) == EncodeChar(s[k]) + Encode(s[k..][1..]);
      assert Encode(s)[|Encode(s[..k])|] == Encode(s[k..])[0] == EncodeChar(s[k])[0];
    } else {
      assert s[..k] == s;
    }
  }
}
