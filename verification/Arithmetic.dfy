/** Facts about quotients and remainders that several components need. */
module Arithmetic {

  /** One more than an unsigned 32-bit number can be. */
  const UINT32: nat := 0x1_0000_0000

  lemma QuotientOf(n: int, k: int, q: int, r: int)
    requires k > 0 && 0 <= r < k && n == k * q + r
    ensures n / k == q && n % k == r
  {
    var d := n / k - q;
    assert k * (n / k) + n % k == n;
    assert k * d == r - n % k;
    assert d >= 1 ==> k * d >= k;
    assert d <= -1 ==> k * d <= -k;
  }
}
