/** Integer operations of Go that the governor relies on, stated in Dafny's
    unbounded integers: the `abs` helper of the program and Go's `/`, which
    truncates toward zero where Dafny's `/` is Euclidean. */
module GoInt {

  /** The program's own `abs` helper. */
  function Abs(a: int): (r: int)
    ensures r >= 0
    ensures r == a || r == -a
    ensures a >= 0 ==> r == a
  {
    if a < 0 then -a else a
  }

  lemma AbsSymmetric(a: int)
    ensures Abs(a) == Abs(-a)
  {
  }

  /** Go's integer quotient `a / d` for a positive divisor: the quotient is
      truncated toward zero, so the remainder `a - q * d` carries the sign
      of `a` and is smaller than `d` in magnitude. */
  function Quot(a: int, d: int): (q: int)
    requires d > 0
    ensures a >= 0 ==> 0 <= a - q * d < d
    ensures a < 0 ==> -d < a - q * d <= 0
    ensures a >= 0 ==> q >= 0
    ensures a <= 0 ==> q <= 0
  {
    if a >= 0 then a / d else -((-a) / d)
  }

  /** The remainder conditions of Go's division determine the quotient. */
  lemma QuotUnique(a: int, d: int, q: int)
    requires d > 0
    requires a >= 0 ==> 0 <= a - q * d < d
    requires a < 0 ==> -d < a - q * d <= 0
    ensures q == Quot(a, d)
  {
    var p := Quot(a, d);
    if q < p {
      MulStep(q, p, d);
    } else if q > p {
      MulStep(p, q, d);
    }
  }

  lemma MulStep(x: int, y: int, d: int)
    requires d > 0 && x < y
    ensures x * d <= y * d - d
  {
    assert (y - x - 1) * d >= 0;
    assert (y - x) * d == (y - x - 1) * d + d;
  }

  /** Unlike Euclidean division, truncation is symmetric about zero. */
  lemma QuotNegate(a: int, d: int)
    requires d > 0
    ensures Quot(-a, d) == -Quot(a, d)
  {
    QuotUnique(-a, d, -Quot(a, d));
  }

  /** Truncating division by a positive divisor preserves order. */
  lemma QuotMonotone(a: int, b: int, d: int)
    requires d > 0 && a <= b
    ensures Quot(a, d) <= Quot(b, d)
  {
    var p, q := Quot(a, d), Quot(b, d);
    if p > q {
      MulStep(q, p, d);
    }
  }
}
