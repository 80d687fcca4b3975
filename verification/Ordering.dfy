/** Strict orders, sorting by a comparator, and why a strictly sorted listing is unique. */
module Ordering {

  /** Byte order of `str`, which for UTF-8 is the order of the scalars. */
  predicate StrLess(a: string, b: string) {
    b != [] && (a == [] || a[0] < b[0] || (a[0] == b[0] && StrLess(a[1..], b[1..])))
  }

  lemma {:induction false} StrLessIrreflexive(a: string)
    ensures !StrLess(a, a)
  {
    if a != [] {
      StrLessIrreflexive(a[1..]);
    }
  }

  lemma {:induction false} StrLessTransitive(a: string, b: string, c: string)
    requires StrLess(a, b) && StrLess(b, c)
    ensures StrLess(a, c)
  {
    if a != [] && a[0] == b[0] == c[0] {
      StrLessTransitive(a[1..], b[1..], c[1..]);
    }
  }

  lemma {:induction false} StrLessTotal(a: string, b: string)
    requires a != b
    ensures StrLess(a, b) || StrLess(b, a)
  {
    if a != [] && b != [] && a[0] == b[0] {
      assert a == [a[0]] + a[1..] && b == [b[0]] + b[1..];
      StrLessTotal(a[1..], b[1..]);
    }
  }

  /** `a` and `b` agree on their first `n` characters; there `a` ends first or has the smaller character. */
  predicate LessAt(a: string, b: string, n: nat) {
    n <= |a| && n < |b| && a[..n] == b[..n] && (n == |a| || a[n] < b[n])
  }

  lemma {:induction false} StrLessDiffers(a: string, b: string) returns (n: nat)
    requires StrLess(a, b)
    ensures LessAt(a, b, n)
  {
    if a == [] || a[0] < b[0] {
      n := 0;
    } else {
      n := StrLessDiffers(a[1..], b[1..]);
      assert a[..n + 1] == [a[0]] + a[1..][..n] && b[..n + 1] == [b[0]] + b[1..][..n];
      n := n + 1;
    }
  }

  lemma {:induction false} DiffersStrLess(a: string, b: string, n: nat)
    requires LessAt(a, b, n)
    ensures StrLess(a, b)
  {
    if n > 0 {
      assert a[0] == a[..n][0] && b[0] == b[..n][0];
      assert a[1..][..n - 1] == a[..n][1..] && b[1..][..n - 1] == b[..n][1..];
      DiffersStrLess(a[1..], b[1..], n - 1);
    }
  }

  ghost predicate StrictOrder<T(!new)>(before: (T, T) -> bool) {
    && (forall x :: !before(x, x))
    && (forall x, y, z :: before(x, y) && before(y, z) ==> before(x, z))
  }

  ghost predicate StrictlySorted<T>(before: (T, T) -> bool, s: seq<T>) {
    forall i, j :: 0 <= i < j < |s| ==> before(s[i], s[j])
  }

  /** Any two different members of `s` are ordered one way or the other. */
  ghost predicate Comparable<T>(before: (T, T) -> bool, s: seq<T>) {
    forall i, j :: 0 <= i < j < |s| ==> before(s[i], s[j]) || before(s[j], s[i])
  }

  lemma HeadIsMember<T>(s: seq<T>)
    requires s != []
    ensures s[0] in s
  {
  }

  /** Two strictly sorted listings of the same members are the same listing. */
  lemma {:induction false} StrictlySortedUnique<T(!new)>(before: (T, T) -> bool, s: seq<T>, t: seq<T>)
    requires StrictOrder(before)
    requires StrictlySorted(before, s) && StrictlySorted(before, t)
    requires forall x :: x in s <==> x in t
    ensures s == t
  {
    if s == [] {
      if t != [] {
        HeadIsMember(t);
        assert false;
      }
    } else {
      HeadIsMember(s);
      assert s[0] in t;
      assert t[0] in s;
      assert s[0] == t[0];
      forall x ensures x in s[1..] <==> x in t[1..] {
        if x in s[1..] { assert before(s[0], x); assert x in t; }
        if x in t[1..] { assert before(t[0], x); assert x in s; }
      }
      StrictlySortedUnique(before, s[1..], t[1..]);
      assert s == [s[0]] + s[1..] && t == [t[0]] + t[1..];
    }
  }

  function Insert<T>(before: (T, T) -> bool, x: T, s: seq<T>): seq<T> {
    if s == [] then [x]
    else if !before(s[0], x) then [x] + s
    else [s[0]] + Insert(before, x, s[1..])
  }

  /** The stable sort behind Rust's `sort_by`. */
  function SortBy<T>(before: (T, T) -> bool, s: seq<T>): seq<T> {
    if s == [] then [] else Insert(before, s[0], SortBy(before, s[1..]))
  }

  lemma {:induction false} InsertMultiset<T>(before: (T, T) -> bool, x: T, s: seq<T>)
    ensures multiset(Insert(before, x, s)) == multiset(s) + multiset{x}
  {
    if s != [] && before(s[0], x) {
      InsertMultiset(before, x, s[1..]);
      assert s == [s[0]] + s[1..];
    }
  }

  lemma {:induction false} SortByPermutes<T>(before: (T, T) -> bool, s: seq<T>)
    ensures multiset(SortBy(before, s)) == multiset(s)
  {
    if s != [] {
      SortByPermutes(before, s[1..]);
      InsertMultiset(before, s[0], SortBy(before, s[1..]));
      assert s == [s[0]] + s[1..];
    }
  }

  lemma {:induction false} InsertSorted<T(!new)>(before: (T, T) -> bool, x: T, s: seq<T>)
    requires StrictOrder(before) && StrictlySorted(before, s)
    requires forall y :: y in s ==> before(x, y) || before(y, x)
    ensures StrictlySorted(before, Insert(before, x, s))
  {
    if s != [] {
      if !before(s[0], x) {
        assert s[0] in s;
        forall y | y in s ensures before(x, y) {
          var i :| 0 <= i < |s| && s[i] == y;
          assert i == 0 || before(s[0], s[i]);
        }
      } else {
        InsertSorted(before, x, s[1..]);
        InsertMultiset(before, x, s[1..]);
        var tail := Insert(before, x, s[1..]);
        forall y | y in tail ensures before(s[0], y) {
          assert y in multiset(tail);
          assert y in s[1..] || y == x;
        }
      }
    }
  }

  /** Members that are pairwise comparable come out strictly sorted, none lost or added. */
  lemma {:induction false} SortBySorts<T(!new)>(before: (T, T) -> bool, s: seq<T>)
    requires StrictOrder(before) && Comparable(before, s)
    ensures StrictlySorted(before, SortBy(before, s))
    ensures forall x :: x in SortBy(before, s) <==> x in s
    ensures |SortBy(before, s)| == |s|
  {
    SortByPermutes(before, s);
    assert |multiset(SortBy(before, s))| == |multiset(s)|;
    forall x ensures x in SortBy(before, s) <==> x in s {
      assert x in multiset(SortBy(before, s)) <==> x in multiset(s);
    }
    if s != [] {
      SortBySorts(before, s[1..]);
      forall y | y in SortBy(before, s[1..]) ensures before(s[0], y) || before(y, s[0]) {
        assert y in s[1..];
        var i :| 0 <= i < |s[1..]| && s[1..][i] == y;
        assert s[i + 1] == y;
      }
      InsertSorted(before, s[0], SortBy(before, s[1..]));
    }
  }

  /** In a permutation `b` of `a`, the head of `a` can be taken out leaving a permutation of its tail. */
  lemma TakeOutHead<T>(a: seq<T>, b: seq<T>) returns (i: nat)
    requires a != [] && multiset(a) == multiset(b)
    ensures i < |b| && b[i] == a[0]
    ensures b == b[..i] + [b[i]] + b[i + 1..]
    ensures multiset(a[1..]) == multiset(b[..i] + b[i + 1..])
  {
    assert a[0] in multiset(b);
    i :| 0 <= i < |b| && b[i] == a[0];
    assert b == b[..i] + [b[i]] + b[i + 1..];
    assert a == [a[0]] + a[1..];
    assert multiset(a) == multiset{a[0]} + multiset(a[1..]);
    assert multiset(b) == multiset(b[..i]) + multiset{b[i]} + multiset(b[i + 1..]);
    assert multiset(a[1..]) == multiset(a) - multiset{a[0]};
    assert multiset(b[..i] + b[i + 1..]) == multiset(b) - multiset{b[i]};
  }

  // ----- Sorting by a key that several elements may share -----

  /** A strict order in which "neither before the other" is an equivalence. */
  ghost predicate WeakOrder<T(!new)>(before: (T, T) -> bool) {
    && StrictOrder(before)
    && (forall x, y, z :: !before(x, y) && !before(y, z) ==> !before(x, z))
  }

  ghost predicate Sorted<T>(before: (T, T) -> bool, s: seq<T>) {
    forall i, j :: 0 <= i < j < |s| ==> !before(s[j], s[i])
  }

  lemma {:induction false} InsertKeepsSorted<T(!new)>(before: (T, T) -> bool, x: T, s: seq<T>)
    requires WeakOrder(before) && Sorted(before, s)
    ensures Sorted(before, Insert(before, x, s))
  {
    if s != [] {
      if before(s[0], x) {
        InsertKeepsSorted(before, x, s[1..]);
        InsertMultiset(before, x, s[1..]);
        var tail := Insert(before, x, s[1..]);
        forall y | y in tail ensures !before(y, s[0]) {
          assert y in multiset(tail);
          assert y in s[1..] || y == x;
        }
      } else {
        forall i | 0 <= i < |s| ensures !before(s[i], x) {
          assert i == 0 || !before(s[i], s[0]);
        }
      }
    }
  }

  lemma {:induction false} SortByIsSorted<T(!new)>(before: (T, T) -> bool, s: seq<T>)
    requires WeakOrder(before)
    ensures Sorted(before, SortBy(before, s))
  {
    if s != [] {
      SortByIsSorted(before, s[1..]);
      InsertKeepsSorted(before, s[0], SortBy(before, s[1..]));
    }
  }

  /** Sorting a sorted sequence changes nothing, not even the order of equals. */
  lemma {:induction false} SortOfSorted<T(!new)>(before: (T, T) -> bool, s: seq<T>)
    requires Sorted(before, s)
    ensures SortBy(before, s) == s
  {
    if s != [] {
      SortOfSorted(before, s[1..]);
      assert s == [s[0]] + s[1..];
      assert s[1..] != [] ==> !before(s[1], s[0]);
    }
  }

  ghost predicate TotalOrder<T(!new)>(before: (T, T) -> bool) {
    StrictOrder(before) && forall x, y :: x != y ==> before(x, y) || before(y, x)
  }

  lemma SortedHeadIsFirst<T(!new)>(before: (T, T) -> bool, s: seq<T>, x: T)
    requires TotalOrder(before) && Sorted(before, s) && x in s
    ensures x == s[0] || before(s[0], x)
  {
    var i :| 0 <= i < |s| && s[i] == x;
  }

  lemma SameMembers<T>(s: seq<T>, t: seq<T>, x: T)
    requires multiset(s) == multiset(t)
    ensures x in s <==> x in t
  {
    assert x in multiset(s) <==> x in multiset(t);
  }

  lemma SameSortedHead<T(!new)>(before: (T, T) -> bool, s: seq<T>, t: seq<T>)
    requires TotalOrder(before) && Sorted(before, s) && Sorted(before, t)
    requires s != [] && t != [] && s[0] in t && t[0] in s
    ensures s[0] == t[0]
  {
    SortedHeadIsFirst(before, s, t[0]);
    SortedHeadIsFirst(before, t, s[0]);
  }

  lemma SameTail<T>(s: seq<T>, t: seq<T>)
    requires s != [] && t != [] && s[0] == t[0] && multiset(s) == multiset(t)
    ensures multiset(s[1..]) == multiset(t[1..])
  {
    assert t == [t[0]] + t[1..] && s == [s[0]] + s[1..];
    assert multiset(s[1..]) == multiset(s) - multiset{s[0]};
    assert multiset(t[1..]) == multiset(t) - multiset{t[0]};
  }

  /** A sorted permutation is unique under an order that tells any two different elements apart. */
  lemma {:induction false} SortedPermutationUnique<T(!new)>(before: (T, T) -> bool, s: seq<T>, t: seq<T>)
    requires TotalOrder(before) && Sorted(before, s) && Sorted(before, t) && multiset(s) == multiset(t)
    ensures s == t
  {
    hide Sorted, TotalOrder;
    assert |multiset(s)| == |s| && |multiset(t)| == |t|;
    if s != [] {
      SameMembers(s, t, s[0]);
      SameMembers(s, t, t[0]);
      SameSortedHead(before, s, t);
      SameTail(s, t);
      SortedTail(before, s);
      SortedTail(before, t);
      SortedPermutationUnique(before, s[1..], t[1..]);
      assert t == [t[0]] + t[1..] && s == [s[0]] + s[1..];
    }
  }

  lemma SortedTail<T>(before: (T, T) -> bool, s: seq<T>)
    requires s != [] && Sorted(before, s)
    ensures Sorted(before, s[1..])
  {
  }

  function Mapped<T, U>(f: T -> U, s: seq<T>): seq<U> {
    seq(|s|, i requires 0 <= i < |s| => f(s[i]))
  }

  lemma {:induction false} MappedPermutation<T, U>(f: T -> U, a: seq<T>, b: seq<T>)
    requires multiset(a) == multiset(b)
    ensures multiset(Mapped(f, a)) == multiset(Mapped(f, b))
  {
    assert |multiset(a)| == |a| && |multiset(b)| == |b|;
    if a != [] {
      var i := TakeOutHead(a, b);
      var rest := b[..i] + b[i + 1..];
      MappedPermutation(f, a[1..], rest);
      assert Mapped(f, a) == [f(a[0])] + Mapped(f, a[1..]);
      assert Mapped(f, b) == Mapped(f, b[..i]) + [f(b[i])] + Mapped(f, b[i + 1..]);
      assert Mapped(f, rest) == Mapped(f, b[..i]) + Mapped(f, b[i + 1..]);
    } else {
      assert Mapped(f, a) == Mapped(f, b);
    }
  }

  /** No element occurs twice. */
  ghost predicate NoDuplicates<T>(s: seq<T>) {
    forall i, j :: 0 <= i < j < |s| ==> s[i] != s[j]
  }

  lemma {:induction false} DistinctMultiset<T>(s: seq<T>)
    requires NoDuplicates(s)
    ensures forall x :: multiset(s)[x] == if x in s then 1 else 0
  {
    if s != [] {
      DistinctMultiset(s[1..]);
      assert s == [s[0]] + s[1..];
      assert s[0] !in s[1..];
    }
  }
}
