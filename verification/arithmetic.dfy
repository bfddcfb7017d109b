/** Products and quotients of natural numbers. */
module Arithmetic {

  lemma MulMonotone(a: nat, b: nat, s: nat)
    requires a <= b
    ensures a * s <= b * s
  {
  }

  lemma LessIfProductsLess(a: nat, b: nat, s: nat)
    requires s > 0
    ensures a * s <= b * s ==> a <= b
    ensures a * s < b * s ==> a < b
  {
    if a > b {
      MulMonotone(b + 1, a, s);
    }
  }

  lemma DivisionBounds(length: nat, size: nat)
    requires size > 0
    ensures length / size * size <= length < (length / size + 1) * size
  {
    assert length == length / size * size + length % size;
  }

  lemma Quotient(a: nat, n: nat) returns (q: nat)
    requires n > 0
    ensures q == a / n && q * n <= a < (q + 1) * n
  {
    q := a / n;
    DivisionBounds(a, n);
  }

  lemma ExactDivision(n: nat, s: nat)
    requires s > 0
    ensures n * s / s == n
  {
    var q := n * s / s;
    DivisionBounds(n * s, s);
    LessIfProductsLess(q, n, s);
    LessIfProductsLess(n, q + 1, s);
  }

  lemma LeastQuotient(q: nat, p: nat, a: nat, b: nat, n: nat)
    requires n > 0 && q * n <= a <= b < (p + 1) * n
    ensures q <= p
  {
    LessIfProductsLess(q, p + 1, n);
  }

  lemma QuotientMonotone(a: nat, b: nat, n: nat)
    requires a <= b && n > 0
    ensures a / n <= b / n
  {
    var q := Quotient(a, n);
    var p := Quotient(b, n);
    LeastQuotient(q, p, a, b, n);
  }

  lemma SmallerFactor(q: nat, n: nat, s: nat)
    requires s > 1 && n > 0 && q * s <= n
    ensures q < n
  {
    MulMonotone(2, s, q);
  }

  lemma QuotientSmaller(n: nat, s: nat)
    requires n > 0 && s > 1
    ensures n / s < n
  {
    var q := Quotient(n, s);
    SmallerFactor(q, n, s);
  }

  lemma ScaledAtMost(b: nat, i: nat, n: nat)
    requires i <= n && n > 0
    ensures 0 <= b * i / n <= b
  {
    var x: nat := b * i;
    MulMonotone(i, n, b);
    var q := Quotient(x, n);
    LeastQuotient(q, b, x, x, n);
  }

  /** Scaling down a position in 0..n to 0..b keeps the order and the bounds. */
  lemma ScaledMonotone(b: nat, i: nat, n: nat)
    requires i < n
    ensures 0 <= b * i / n <= b * (i + 1) / n <= b
  {
    ScaledAtMost(b, i, n);
    ScaledAtMost(b, i + 1, n);
    var x: nat, y: nat := b * i, b * (i + 1);
    assert x <= y;
    QuotientMonotone(x, y, n);
  }
}
