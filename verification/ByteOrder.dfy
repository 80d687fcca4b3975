/** Why comparing texts character by character is comparing their bytes, as `str` does. */
module ByteOrder {
  import opened Common
  import opened Ordering
  import opened Utf8

  /** Of two byte strings, the first one is smaller: they agree up to `n`, and there it ends or has the smaller byte. */
  predicate BytesLessAt(x: seq<byte>, y: seq<byte>, n: nat) {
    n <= |x| && n < |y| && x[..n] == y[..n] && (n == |x| || x[n] < y[n])
  }

  ghost predicate BytesLess(x: seq<byte>, y: seq<byte>) {
    exists n :: BytesLessAt(x, y, n)
  }

  lemma BytesLessExcludes(x: seq<byte>, y: seq<byte>, n: nat, m: nat)
    requires BytesLessAt(x, y, n)
    ensures !BytesLessAt(y, x, m)
  {
    if m < n {
      assert x[m] == x[..n][m] && y[m] == y[..n][m];
    } else if n < m && m <= |y| && m < |x| {
      assert x[..m][n] != y[..m][n];
    }
  }

  lemma BytesLessAsymmetric(x: seq<byte>, y: seq<byte>)
    requires BytesLess(x, y)
    ensures !BytesLess(y, x) && x != y
  {
    var n :| BytesLessAt(x, y, n);
    forall m: nat ensures !BytesLessAt(y, x, m) {
      BytesLessExcludes(x, y, n, m);
    }
  }

  /** The first byte at which the encodings of a smaller and a greater character differ. */
  lemma SmallerCharFirst(c: char, d: char) returns (n: nat)
    requires c < d
    ensures n < |EncodeChar(c)| && n < |EncodeChar(d)|
    ensures EncodeChar(c)[..n] == EncodeChar(d)[..n] && EncodeChar(c)[n] < EncodeChar(d)[n]
  {
    var e, f := EncodeChar(c), EncodeChar(d);
    LeadByteGivesLength(c);
    LeadByteGivesLength(d);
    if e[0] != f[0] {
      n := 0;
      LeadByteOrder(c, d);
    } else {
      DecodeChar(c);
      DecodeChar(d);
      if e[1] != f[1] {
        n := 1;
      } else if e[2] != f[2] {
        n := 2;
      } else {
        n := 3;
      }
    }
  }

  lemma LeadByteOrder(c: char, d: char)
    requires c < d
    ensures EncodeChar(c)[0] <= EncodeChar(d)[0]
  {
  }

  /** Characters in order have encodings in order: UTF-8 keeps the order of texts. */
  lemma TextOrderIsByteOrder(a: string, b: string)
    ensures StrLess(a, b) <==> BytesLess(Encode(a), Encode(b))
  {
    if StrLess(a, b) {
      SmallerTextFirst(a, b);
    } else if a == b {
      if BytesLess(Encode(a), Encode(b)) {
        BytesLessAsymmetric(Encode(a), Encode(b));
      }
    } else {
      StrLessTotal(a, b);
      SmallerTextFirst(b, a);
      BytesLessAsymmetric(Encode(b), Encode(a));
    }
  }

  lemma BytesLessBehind(same: seq<byte>, x: seq<byte>, y: seq<byte>, n: nat)
    requires BytesLessAt(x, y, n)
    ensures BytesLessAt(same + x, same + y, |same| + n)
  {
    assert (same + x)[..|same| + n] == same + x[..n];
    assert (same + y)[..|same| + n] == same + y[..n];
  }

  lemma SmallerHeadFirst(e: seq<byte>, u: seq<byte>, f: seq<byte>, v: seq<byte>, n: nat)
    requires n < |e| && n < |f| && e[..n] == f[..n] && e[n] < f[n]
    ensures BytesLessAt(e + u, f + v, n)
  {
    assert (e + u)[..n] == e[..n] && (f + v)[..n] == f[..n];
  }

  lemma SmallerTextFirst(a: string, b: string)
    requires StrLess(a, b)
    ensures BytesLess(Encode(a), Encode(b))
  {
    var k := StrLessDiffers(a, b);
    EncodePrefix(a, k);
    EncodePrefix(b, k);
    EncodeCharShape(b[k]);
    var same, x, y := Encode(a[..k]), Encode(a[k..]), Encode(b[k..]);
    if k == |a| {
      assert a[k..] == [];
      BytesLessBehind(same, x, y, 0);
    } else {
      var n := SmallerCharFirst(a[k], b[k]);
      SmallerHeadFirst(EncodeChar(a[k]), Encode(a[k..][1..]), EncodeChar(b[k]), Encode(b[k..][1..]), n);
      BytesLessBehind(same, x, y, n);
    }
  }
}
