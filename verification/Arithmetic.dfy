/** The little non-linear arithmetic that several modules need. */
module Arithmetic {

  lemma MulLe(a: nat, b: nat, m: nat)
    requires a <= b
    ensures a * m <= b * m && m * a <= m * b
  {
  }

  lemma DivisionBound(n: nat, i: nat, t: nat)
    requires i > 0 && n * i <= t
    ensures n <= t / i
  {
    if n > t / i {
      MulLe(t / i + 1, n, i);
      assert false;
    }
  }

  lemma DivUnique(n: nat, m: nat, q: nat, r: nat)
    requires n == q * m + r && r < m
    ensures n / m == q
  {
    var p := n / m;
    assert p * m + n % m == q * m + r;
    if p > q {
      MulLe(q + 1, p, m);
      assert false;
    }
    if p < q {
      MulLe(p + 1, q, m);
      assert false;
    }
  }
}
