/** Facts about products, quotients and powers that several components share. */
module Arithmetic {

  function Pow(b: nat, e: nat): (r: nat)
    ensures b > 0 ==> r > 0
  {
    if e == 0 then 1
    else
      if b > 0 then MulAtLeast(Pow(b, e - 1), b); b * Pow(b, e - 1)
      else 0
  }

  lemma {:induction false} PowAdd(b: nat, d: nat, e: nat)
    ensures Pow(b, d + e) == Pow(b, d) * Pow(b, e)
  {
    if d > 0 {
      PowAdd(b, d - 1, e);
      PowUnfold(b, d);
      PowUnfold(b, d + e);
      hide Pow;
      MulAssoc(b, Pow(b, d - 1), Pow(b, e));
    }
  }

  lemma PowUnfold(b: nat, e: nat)
    requires e > 0
    ensures Pow(b, e) == b * Pow(b, e - 1)
  {
  }

  lemma MulAssoc(a: nat, b: nat, c: nat)
    ensures a * (b * c) == (a * b) * c
  {
  }

  lemma MulAtLeast(k: nat, d: nat)
    requires k >= 1
    ensures k * d >= d
  {
    assert (k - 1) * d >= 0;
    assert k * d == (k - 1) * d + d;
  }

  lemma MulStep(a: nat, b: nat, d: nat)
    requires a < b
    ensures a * d + d <= b * d
  {
    var k := b - a;
    MulAtLeast(k, d);
    assert (a + k) * d == a * d + k * d;
  }

  lemma QuotientUnique(a: nat, x: nat, b: nat, y: nat, d: nat)
    requires x < d && y < d
    requires a * d + x == b * d + y
    ensures a == b && x == y
  {
    if a < b {
      MulStep(a, b, d);
    } else if b < a {
      MulStep(b, a, d);
    }
  }

  lemma DivModUnique(q: nat, d: nat, r: nat)
    requires r < d
    ensures (q * d + r) / d == q
    ensures (q * d + r) % d == r
  {
    var n := q * d + r;
    assert n == (n / d) * d + n % d;
    QuotientUnique(q, r, n / d, n % d, d);
  }

  lemma DivBound(d: nat, c: nat, e: nat)
    requires d < c * e
    ensures c > 0 && d % c < c && d / c < e
    ensures d == (d / c) * c + d % c
  {
    var q := d / c;
    assert d == q * c + d % c;
    if e < q + 1 {
      MulStep(e, q + 1, c);
    }
  }

  /** A mixed-radix slot: `hi` digits of radix `lo` over a base. */
  lemma SlotBounds(base: nat, lo: nat, li: nat, hi: nat, ri: nat, r: nat)
    requires li < lo && ri < hi
    requires r == base + ri * lo + li
    ensures base <= r < base + lo * hi
    ensures (r - base) % lo == li && (r - base) / lo == ri
  {
    MulStep(ri, hi, lo);
    DivModUnique(ri, lo, li);
  }

  lemma MulMonotone(a: nat, b: nat, d: nat)
    requires a <= b
    ensures a * d <= b * d && d * a <= d * b
  {
    if a < b { MulStep(a, b, d); }
  }

  lemma {:induction false} PowMonotone(a: nat, b: nat, e: nat)
    requires a <= b
    ensures Pow(a, e) <= Pow(b, e)
  {
    if e > 0 {
      PowMonotone(a, b, e - 1);
      assert a * Pow(a, e - 1) <= b * Pow(b, e - 1) by {
        assert a * Pow(a, e - 1) <= a * Pow(b, e - 1) by { MulMonotone(Pow(a, e - 1), Pow(b, e - 1), a); }
        assert a * Pow(b, e - 1) <= b * Pow(b, e - 1) by { MulMonotone(a, b, Pow(b, e - 1)); }
      }
    }
  }

  lemma {:induction false} PowAbove(m: nat, e: nat)
    requires e >= 1
    ensures Pow(m, e) >= m
  {
    if m > 0 && e > 1 {
      PowAbove(m, e - 1);
      MulMonotone(1, Pow(m, e - 1), m);
    }
  }

  lemma PowPositive(n: nat)
    ensures Pow(2, n) > 0
  {
  }
}
