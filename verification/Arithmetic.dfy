/** Products and quotients of variables, by repeated addition and subtraction: proofs carry them
    along without multiplying them out.  The lemmas connect them with the operators. */
module Arithmetic {

  /** a * b */
  function Times(a: nat, b: nat): nat {
    if b == 0 then 0 else Times(a, b - 1) + a
  }

  /** y / d, and 0 for a negative y. */
  function Quotient(y: int, d: nat): nat
    requires d > 0
    decreases y
  {
    if y < d then 0 else 1 + Quotient(y - d, d)
  }

  lemma {:induction false} TimesIsProduct(a: nat, b: nat)
    ensures Times(a, b) == a * b
  {
    if b > 0 {
      TimesIsProduct(a, b - 1);
      assert a * (b - 1) + a == a * b;
    }
  }

  lemma {:induction false} QuotientIsDivision(y: nat, d: nat)
    requires d > 0
    ensures Quotient(y, d) == y / d
    decreases y
  {
    if y >= d {
      QuotientIsDivision(y - d, d);
      assert (y - d) / d + 1 == y / d by { DivideStep(y, d); }
    } else {
      assert y / d == 0 by { DivideSmall(y, d); }
    }
  }

  lemma DivideSmall(y: nat, d: nat)
    requires y < d
    ensures y / d == 0
  {
  }

  lemma DivideStep(y: nat, d: nat)
    requires 0 < d <= y
    ensures (y - d) / d + 1 == y / d
  {
    var q := (y - d) / d;
    assert y - d == q * d + (y - d) % d;
    assert (q + 1) * d == q * d + d;
    var r := (y - d) % d;
    assert y == (q + 1) * d + r && 0 <= r < d;
    QuotientUnique(y, d, q + 1, r);
  }

  lemma ProductGrows(a: nat, b: nat, d: nat)
    requires a < b
    ensures a * d + d <= b * d
  {
    assert (b - a - 1) * d >= 0;
    assert b * d == (b - a - 1) * d + a * d + d;
  }

  lemma QuotientUnique(y: nat, d: nat, q: nat, r: nat)
    requires d > 0 && y == q * d + r && r < d
    ensures y / d == q
  {
    var p := y / d;
    assert y == p * d + y % d;
    if p < q { ProductGrows(p, q, d); }
    if q < p { ProductGrows(q, p, d); }
  }

  lemma QuotientSmall(y: nat, d: nat)
    requires d > 0
    ensures Quotient(y, d) <= y
    decreases y
  {
    if y >= d { QuotientSmall(y - d, d); }
  }

  lemma {:induction false} QuotientBound(x: nat, y: int, d: nat)
    requires d > 0 && Times(d, x) <= y
    ensures x <= Quotient(y, d)
    decreases x
  {
    if x > 0 { QuotientBound(x - 1, y - d, d); }
  }

  lemma {:induction false} TimesMonotone(a: nat, b: nat, n: nat)
    requires a <= b
    ensures Times(a, n) <= Times(b, n)
  {
    if n > 0 { TimesMonotone(a, b, n - 1); }
  }

  lemma TimesStrict(a: nat, b: nat, n: nat)
    requires a < b && n >= 1
    ensures Times(a, n) < Times(b, n)
  {
    TimesMonotone(a, b, n - 1);
  }

  lemma {:induction false} TimesAddLeft(a: nat, b: nat, n: nat)
    ensures Times(a + b, n) == Times(a, n) + Times(b, n)
  {
    if n > 0 { TimesAddLeft(a, b, n - 1); }
  }

  lemma {:induction false} TimesAdd(a: nat, b: nat, c: nat)
    ensures Times(a, b + c) == Times(a, b) + Times(a, c)
  {
    if c > 0 { TimesAdd(a, b, c - 1); }
  }

  lemma TimesSwap(b: nat, n: nat, k: nat)
    ensures Times(Times(b, n), k) == Times(Times(b, k), n)
  {
    TimesIsProduct(b, n);
    TimesIsProduct(b, k);
    TimesIsProduct(b * n, k);
    TimesIsProduct(b * k, n);
    assert b * n * k == b * k * n;
  }

  lemma TimesCommutes(a: nat, b: nat)
    ensures Times(a, b) == Times(b, a)
  {
    TimesIsProduct(a, b);
    TimesIsProduct(b, a);
  }

  lemma TimesDivided(a: nat, n: nat)
    requires n >= 1
    ensures Times(a, n) / n == a
  {
    TimesIsProduct(a, n);
    QuotientUnique(a * n, n, a, 0);
  }
}
