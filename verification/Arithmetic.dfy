/** Quotients and remainders by a divisor that is not a constant. */
module Arithmetic {

  lemma Multiple(d: int, k: int)
    requires k >= 0
    ensures d >= 1 ==> d * k >= k
    ensures d <= -1 ==> d * k <= -k
  {
    if d >= 1 {
      assert (d - 1) * k >= 0;
    } else if d <= -1 {
      assert (-d - 1) * k >= 0;
    }
  }

  lemma Remainder(q: nat, k: nat, o: nat)
    requires o < k
    ensures (q * k + o) % k == o && (q * k + o) / k == q
  {
    var n := q * k + o;
    assert n == (n / k) * k + n % k;
    var d := n / k - q;
    assert d * k == o - n % k;
    Multiple(d, k);
  }
}
