/** Multiples of a number. */
module Arithmetic {

  lemma MultipleMod(q: int, k: int)
    requires k > 0
    ensures (q * k) % k == 0
  {
    var d, r := (q * k) / k, (q * k) % k;
    assert q * k == d * k + r;
    assert (q - d) * k == q * k - d * k;
    SmallMultiple(q - d, k);
  }

  lemma SmallMultiple(a: int, k: int)
    requires k > 0 && -k < a * k < k
    ensures a == 0
  {
    if a >= 1 {
      MultipleGrows(a, k);
      assert false;
    } else if a <= -1 {
      MultipleGrows(-a, k);
      assert false;
    }
  }

  lemma MultipleGrows(a: int, k: int)
    requires k > 0 && a >= 1
    ensures a * k >= k && (-a) * k <= -k
  {
    assert a * k == (a - 1) * k + k;
  }
}
