// Facts about products and quotients that the array models share.

module Arithmetic {

  lemma Scaled(a: int, b: int, size: nat)
    ensures a <= b ==> a * size <= b * size
    ensures a < b ==> a * size + size <= b * size
    ensures b < a ==> b * size + size <= a * size
  {
    var d := b - a;
    assert b * size - a * size == d * size;
    assert d >= 1 ==> d * size >= size;
    assert -d >= 1 ==> -d * size >= size;
  }

  lemma QuotientIs(n: int, size: nat, q: int, r: nat)
    requires 0 <= r < size && n == q * size + r
    ensures n / size == q
  {
    assert n == n / size * size + n % size;
    Scaled(n / size, q, size);
  }

  lemma AtLeast(total: nat, unit: nat, count: nat)
    requires unit > 0 && total >= count * unit
    ensures total / unit >= count
  {
    Scaled(total / unit, count, unit);
    assert total == total / unit * unit + total % unit;
  }
}
