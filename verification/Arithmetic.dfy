// Products, by repeated addition and back.
module Arithmetic {

  // k times a, by repeated addition.
  ghost function Times(a: int, k: nat): int {
    if k == 0 then 0 else Times(a, k - 1) + a
  }

  lemma {:induction false} TimesDifference(a: int, j: nat, k: nat)
    requires j <= k
    ensures Times(a, k) - Times(a, j) == a * (k - j)
  {
    if j < k {
      TimesDifference(a, j, k - 1);
      assert a * (k - j) == a * (k - 1 - j) + a;
    }
  }

  lemma DivisionBound(k: int, w: int, x: int)
    requires w > 0 && k * w <= x
    ensures k <= x / w
  {
    var d := k - x / w;
    assert x == w * (x / w) + x % w;
    assert d * w == k * w - w * (x / w) < w;
  }

  lemma ProductMonotone(a: int, k: int, q: int)
    requires a >= 0 && k <= q
    ensures a * k <= a * q
  {
    assert a * q - a * k == a * (q - k) >= 0;
  }

  function Max(a: int, b: int): int {
    if a < b then b else a
  }
}
