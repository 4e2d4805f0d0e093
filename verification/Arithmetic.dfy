/** The few facts about products and quotients that address translation needs. */
module Arithmetic {
  lemma Distribute(a: int, b: int, d: int)
    ensures (a + b) * d == a * d + b * d
  {
  }

  lemma ProductNonNegative(a: nat, d: nat)
    ensures a * d >= 0
  {
  }

  /** A smaller multiplier leaves room for one more `d`. */
  lemma MultipleStep(a: nat, b: nat, d: nat)
    requires a < b
    ensures a * d + d <= b * d
  {
    ProductNonNegative(b - a - 1, d);
    Distribute(b - a - 1, a + 1, d);
    Distribute(a, 1, d);
  }

  lemma MultipleOrder(a: nat, b: nat, d: nat)
    requires a <= b
    ensures a * d <= b * d
  {
    if a < b {
      MultipleStep(a, b, d);
    }
  }

  lemma DivMod(a: nat, d: nat)
    requires d > 0
    ensures a == (a / d) * d + a % d && 0 <= a % d < d && 0 <= a / d
  {
  }

  /** Two representations with remainders below `d` are the same one. */
  lemma SameQuotient(q: nat, r: nat, q': nat, r': nat, d: nat)
    requires r < d && r' < d && q * d + r == q' * d + r'
    ensures q == q' && r == r'
  {
    if q < q' {
      MultipleStep(q, q', d);
    } else if q' < q {
      MultipleStep(q', q, d);
    }
  }

  lemma DivModUnique(a: nat, d: nat, q: nat, r: nat)
    requires d > 0 && r < d && a == q * d + r
    ensures a / d == q && a % d == r
  {
    DivMod(a, d);
    SameQuotient(a / d, a % d, q, r, d);
  }

  lemma DivMonotone(a: nat, b: nat, d: nat)
    requires d > 0 && a <= b
    ensures a / d <= b / d
  {
    DivMod(a, d);
    DivMod(b, d);
    if b / d < a / d {
      MultipleStep(b / d, a / d, d);
    }
  }

  /** A number below `q * d` has a quotient below `q`. */
  lemma QuotientBelow(a: nat, d: nat, q: nat)
    requires d > 0
    ensures a < q * d <==> a / d < q
  {
    DivMod(a, d);
    if a / d < q {
      MultipleStep(a / d, q, d);
    } else {
      MultipleOrder(q, a / d, d);
    }
  }

  /** `(a + d - 1) / d` is the least count of `d`s that reaches `a > 0`. */
  lemma CeilDiv(a: nat, d: nat, c: nat)
    requires d > 0 && a > 0 && c == (a + d - 1) / d
    ensures c >= 1 && (c - 1) * d + d == c * d
    ensures (c - 1) * d < a <= c * d
  {
    DivMod(a + d - 1, d);
    if c == 0 {
      assert false;
    }
    Distribute(c - 1, 1, d);
  }

  /** `d * unit`, by repeated addition. */
  function Times(d: nat, unit: nat): nat
  {
    if d == 0 then 0 else Times(d - 1, unit) + unit
  }

  lemma {:induction false} TimesIsProduct(d: nat, unit: nat)
    ensures Times(d, unit) == d * unit
  {
    if d > 0 {
      TimesIsProduct(d - 1, unit);
      Distribute(d - 1, 1, unit);
    }
  }

  lemma {:induction false} TimesSum(a: nat, b: nat, unit: nat)
    ensures Times(a + b, unit) == Times(a, unit) + Times(b, unit)
  {
    if b > 0 {
      TimesSum(a, b - 1, unit);
    }
  }
}
