/** Facts about products, quotients and remainders that index calculations rest on. */
module Arithmetic {
  lemma TimesMono(a: nat, b: nat, c: nat)
    ensures a <= b ==> a * c <= b * c
  {
  }

  /** Products with different factors are a whole `d` apart. */
  lemma Apart(a: nat, b: nat, d: nat)
    ensures a < b ==> a * d + d <= b * d
    ensures b < a ==> b * d + d <= a * d
  {
    if a < b {
      assert (a + 1) * d <= b * d;
    } else if b < a {
      assert (b + 1) * d <= a * d;
    }
  }

  /** A number is determined by its quotient and remainder. */
  lemma SplitUnique(q: nat, r: nat, q': nat, r': nat, d: nat)
    requires r < d && r' < d && q * d + r == q' * d + r'
    ensures q == q' && r == r'
  {
    Apart(q, q', d);
  }

  lemma QuotientAndRemainder(x: nat, d: nat)
    requires d > 0
    ensures x == x / d * d + x % d && x % d < d
  {
  }

  lemma DivMod(q: nat, r: nat, d: nat)
    requires r < d
    ensures (q * d + r) / d == q && (q * d + r) % d == r
  {
    var x := q * d + r;
    QuotientAndRemainder(x, d);
    SplitUnique(x / d, x % d, q, r, d);
  }

  lemma Quotient(h: nat, n: nat, ratio: nat)
    requires ratio > 0 && h < n * ratio
    ensures h / ratio < n
  {
    QuotientAndRemainder(h, ratio);
    Apart(h / ratio, n, ratio);
  }
}
