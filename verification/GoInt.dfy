/** Go's 64-bit signed integers: two's-complement wrap-around and division that truncates toward zero. */
module GoInt {

  type int64 = x: int | -0x8000_0000_0000_0000 <= x < 0x8000_0000_0000_0000

  const MIN_INT64: int64 := -0x8000_0000_0000_0000

  predicate Fits(x: int) {
    -0x8000_0000_0000_0000 <= x < 0x8000_0000_0000_0000
  }

  /** The value an int64 register holds after an operation whose exact result is x. */
  function Wrap(x: int): (r: int64)
    ensures Fits(x) ==> r == x
  {
    (x + 0x8000_0000_0000_0000) % 0x1_0000_0000_0000_0000 - 0x8000_0000_0000_0000
  }

  /** Go's a / b. */
  function Quo(a: int, b: int): int
    requires b != 0
  {
    if a >= 0 then a / b else -((-a) / b)
  }

  /** Go's a % b: the remainder takes the sign of the dividend. */
  function Rem(a: int, b: int): int
    requires b != 0
  {
    if a >= 0 then a % b else -((-a) % b)
  }

  /** Quo and Rem are the one pair with |Rem| < b, Rem's sign that of a, and a == Quo * b + Rem. */
  lemma TruncatedDivision(a: int, b: int, q: int, r: int)
    requires b > 0
    ensures q == Quo(a, b) && r == Rem(a, b) <==>
            a == q * b + r && -b < r < b && (a >= 0 ==> r >= 0) && (a <= 0 ==> r <= 0)
  {
    if a == q * b + r && -b < r < b && (a >= 0 ==> r >= 0) && (a <= 0 ==> r <= 0) {
      if a >= 0 {
        EuclidIsUnique(a, b, q, r);
      } else {
        assert -a == (-q) * b + (-r);
        EuclidIsUnique(-a, b, -q, -r);
      }
    }
  }

  lemma EuclidIsUnique(a: int, b: int, q: int, r: int)
    requires b > 0 && 0 <= r < b && a == q * b + r
    ensures q == a / b && r == a % b
  {
    var d := q - a / b;
    assert a == (a / b) * b + a % b;
    assert d * b == a % b - r by {
      assert (q - a / b) * b == q * b - (a / b) * b;
    }
    if d > 0 {
      MulMonotone(1, d, b);
    } else if d < 0 {
      MulMonotone(d, -1, b);
    }
  }

  lemma MulMonotone(x: int, y: int, b: int)
    requires x <= y && b >= 0
    ensures x * b <= y * b
  {
  }

  /** Wrap(x) is the one int64 congruent to x modulo 2^64. */
  lemma WrapIsResidue(x: int, r: int64)
    ensures r == Wrap(x) <==> (x - r) % 0x1_0000_0000_0000_0000 == 0
  {
  }

  lemma WrapIsPeriodic(x: int, k: int)
    ensures Wrap(x + k * 0x1_0000_0000_0000_0000) == Wrap(x)
  {
  }

  /** Wrapping early or late makes no difference to a sum. */
  lemma WrapAbsorbs(x: int, y: int)
    ensures Wrap(Wrap(x) + y) == Wrap(x + y)
    ensures Wrap(Wrap(x) - y) == Wrap(x - y)
  {
    var k := (x + 0x8000_0000_0000_0000) / 0x1_0000_0000_0000_0000;
    assert Wrap(x) == x - k * 0x1_0000_0000_0000_0000;
    WrapIsPeriodic(x + y, -k);
    WrapIsPeriodic(x - y, -k);
  }
}
