/** The few facts about products and quotients that the budget proofs lean on. */
module Arithmetic {

  lemma MulMonotone(a: nat, b: nat, d: nat)
    ensures a <= b ==> a * d <= b * d
    ensures a * d < b * d ==> a < b
  {
    if a <= b {
      assert b * d == a * d + (b - a) * d;
    } else {
      assert a * d == b * d + (a - b) * d;
    }
  }

  lemma SmallerFactor(q: nat, d: nat, e: nat)
    requires d <= e
    ensures q * d <= q * e
  {
    assert q * e == q * d + q * (e - d);
  }

  lemma OneMore(a: nat, d: nat)
    ensures (a + 1) * d == a * d + d
  {
  }

  lemma Distribute(a: nat, b: nat, c: nat)
    ensures a * c + b * c == (a + b) * c
  {
  }

  /** A product as a function, for contracts that need not look inside it. */
  function Times(a: nat, b: nat): nat {
    a * b
  }

  /** Integer division of unsigned numbers. */
  function Quotient(a: nat, d: nat): nat
    requires d > 0
  {
    a / d
  }

  lemma QuotientBounds(a: nat, d: nat)
    requires d > 0
    ensures Quotient(a, d) * d <= a < (Quotient(a, d) + 1) * d
  {
  }

  lemma QuotientsInOrder(p: nat, q: nat, a: nat, b: nat, d: nat)
    requires p * d <= a <= b < (q + 1) * d
    ensures p <= q
  {
    MulMonotone(p, q + 1, d);
    MulMonotone(q + 1, p, d);
  }

  /** A quotient is the only number of whole `d`s that fits. */
  lemma QuotientUnique(a: nat, d: nat, q: nat)
    requires d > 0 && q * d <= a < (q + 1) * d
    ensures Quotient(a, d) == q
  {
    hide Quotient;
    QuotientBounds(a, d);
    QuotientsInOrder(Quotient(a, d), q, a, a, d);
    QuotientsInOrder(q, Quotient(a, d), a, a, d);
  }

  lemma QuotientMonotone(a: nat, b: nat, d: nat)
    requires d > 0 && a <= b
    ensures Quotient(a, d) <= Quotient(b, d)
  {
    hide Quotient;
    QuotientBounds(a, d);
    QuotientBounds(b, d);
    QuotientsInOrder(Quotient(a, d), Quotient(b, d), a, b, d);
  }

  lemma DivisorMonotone(a: nat, d: nat, e: nat)
    requires 0 < d <= e
    ensures Quotient(a, e) <= Quotient(a, d)
  {
    hide Quotient;
    QuotientBounds(a, d);
    QuotientBounds(a, e);
    SmallerFactor(Quotient(a, e), d, e);
    QuotientsInOrder(Quotient(a, e), Quotient(a, d), Quotient(a, e) * d, a, d);
  }

  /** Rust's `div_ceil`. */
  function CeilDiv(n: nat, d: nat): nat
    requires d > 0
  {
    Quotient(n + d - 1, d)
  }

  /** The rounded-up quotient is the least number of `d`s that covers `n`. */
  lemma CeilDivIsLeast(n: nat, d: nat, w: nat)
    requires d > 0
    ensures n <= w * d <==> CeilDiv(n, d) <= w
  {
    hide Quotient;
    var c := CeilDiv(n, d);
    QuotientBounds(n + d - 1, d);
    OneMore(c, d);
    OneMore(w, d);
    if n <= w * d {
      QuotientsInOrder(c, w, n + d - 1, w * d + d - 1, d);
    }
    if c <= w {
      MulMonotone(c, w, d);
    }
  }

  lemma CeilDivCovers(n: nat, d: nat)
    requires d > 0
    ensures n <= CeilDiv(n, d) * d < n + d
  {
    hide Quotient;
    CeilDivIsLeast(n, d, CeilDiv(n, d));
    QuotientBounds(n + d - 1, d);
  }

  lemma CeilDivMonotone(n: nat, m: nat, d: nat, e: nat)
    requires n <= m && 0 < e <= d
    ensures CeilDiv(n, d) <= CeilDiv(m, e)
  {
    hide Quotient;
    CeilDivCovers(m, e);
    SmallerFactor(CeilDiv(m, e), e, d);
    CeilDivIsLeast(n, d, CeilDiv(m, e));
  }
}
