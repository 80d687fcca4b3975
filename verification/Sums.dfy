/** Sums over a sequence, and how they change when one element does. */
module Sums {

  function Sum<T>(f: T -> nat, s: seq<T>): nat {
    if s == [] then 0 else f(s[0]) + Sum(f, s[1..])
  }

  lemma {:induction false} SumConcat<T>(f: T -> nat, a: seq<T>, b: seq<T>)
    ensures Sum(f, a + b) == Sum(f, a) + Sum(f, b)
  {
    if a == [] {
      assert a + b == b;
    } else {
      assert (a + b)[1..] == a[1..] + b;
      SumConcat(f, a[1..], b);
    }
  }

  lemma SumOne<T>(f: T -> nat, x: T)
    ensures Sum(f, [x]) == f(x)
  {
    assert [x][1..] == [];
  }

  lemma SumUpdate<T>(f: T -> nat, s: seq<T>, i: nat, x: T)
    requires i < |s|
    ensures Sum(f, s[i := x]) + f(s[i]) == Sum(f, s) + f(x)
    ensures f(s[i]) <= Sum(f, s)
  {
    assert s == s[..i] + [s[i]] + s[i + 1..];
    assert s[i := x] == s[..i] + [x] + s[i + 1..];
    SumConcat(f, s[..i] + [s[i]], s[i + 1..]);
    SumConcat(f, s[..i] + [x], s[i + 1..]);
    SumConcat(f, s[..i], [s[i]]);
    SumConcat(f, s[..i], [x]);
    SumOne(f, s[i]);
    SumOne(f, x);
  }

  lemma {:induction false} SumIsZero<T>(f: T -> nat, s: seq<T>)
    ensures Sum(f, s) == 0 <==> forall i :: 0 <= i < |s| ==> f(s[i]) == 0
  {
    if s != [] {
      SumIsZero(f, s[1..]);
      assert forall i :: 0 <= i < |s[1..]| ==> s[1..][i] == s[i + 1];
    }
  }

  /** Terms bounded one by one have bounded sums. */
  lemma {:induction false} SumMonotone<T>(f: T -> nat, g: T -> nat, s: seq<T>)
    requires forall i :: 0 <= i < |s| ==> f(s[i]) <= g(s[i])
    ensures Sum(f, s) <= Sum(g, s)
  {
    if s != [] {
      assert forall i :: 0 <= i < |s[1..]| ==> s[1..][i] == s[i + 1];
      SumMonotone(f, g, s[1..]);
    }
  }
}
