/** Products and quotients, kept as sums where that is easier. */
module Arithmetic {
  function Max1(n: nat): (r: nat)
    ensures r >= 1 && r >= n && (n >= 1 ==> r == n)
  {
    if n == 0 then 1 else n
  }

  /** k * width, kept as a sum. */
  function Multiple(k: nat, width: nat): nat {
    if k == 0 then 0 else Multiple(k - 1, width) + width
  }

  lemma {:induction false} MultipleIsProduct(k: nat, width: nat)
    ensures Multiple(k, width) == k * width
  {
    if k > 0 {
      MultipleIsProduct(k - 1, width);
      assert k * width == (k - 1) * width + width;
    }
  }

  lemma Quotient(n: nat, d: nat, quotient: nat, rest: nat)
    requires d > 0 && rest < d && n == quotient * d + rest
    ensures n / d == quotient && n % d == rest
  {
    var k := n / d - quotient;
    assert k * d == (n / d) * d - quotient * d;
    assert n == (n / d) * d + n % d;
    AtLeastOnce(k, d);
    AtLeastOnce(-k, d);
    assert (-k) * d == -(k * d);
  }

  lemma AtLeastOnce(k: int, d: nat)
    ensures k >= 1 ==> k * d >= d
  {
    if k >= 1 {
      assert k * d == d + (k - 1) * d;
    }
  }
}
