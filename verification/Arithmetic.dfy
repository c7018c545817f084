/** Facts about products and multiples that the solver does not find by itself. */
module Arithmetic {

  lemma MulMonotone(a: int, b: int, k: int)
    requires a <= b && 0 <= k
    ensures a * k <= b * k
  {
  }

  lemma MultipleHasNoRemainder(q: int, step: int)
    requires 0 < step
    ensures q * step % step == 0
  {
    var r := q * step % step;
    var k := q * step / step;
    assert q * step == k * step + r;
    assert (q - k) * step == r;
    if q - k >= 1 {
      MulMonotone(1, q - k, step);
    } else if q - k <= -1 {
      MulMonotone(q - k, -1, step);
    }
  }

  /** No multiple of `step` lies strictly between two consecutive ones. */
  lemma MultiplesAreApart(a: int, b: int, step: int)
    requires 0 < step && a % step == 0 && b % step == 0 && a < b
    ensures a + step <= b
  {
    var i, j := a / step, b / step;
    assert a == i * step && b == j * step;
    if j <= i {
      MulMonotone(j, i, step);
      assert false;
    }
    MulMonotone(i + 1, j, step);
  }

  lemma SumOfMultiples(a: int, b: int, step: int)
    requires 0 < step && a % step == 0 && b % step == 0
    ensures (a + b) % step == 0
  {
    var i, j := a / step, b / step;
    assert a + b == (i + j) * step;
    MultipleHasNoRemainder(i + j, step);
  }
}
