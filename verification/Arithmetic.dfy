/** Facts about products of integers. */
module Arithmetic {

  lemma MultipleGrows(k: nat, a: int, b: int)
    requires a <= b
    ensures k * a <= k * b
    ensures k * (a - 1) == k * a - k
  {
  }

  /** Division with remainder has one answer. */
  lemma QuotientUnique(n: nat, k: nat, q: nat, r: nat)
    requires r < k && n == k * q + r
    ensures n / k == q && n % k == r
  {
    var p := n / k;
    assert n == k * p + n % k;
    if p < q {
      MultipleGrows(k, p + 1, q);
    } else if q < p {
      MultipleGrows(k, q + 1, p);
    }
  }
}
