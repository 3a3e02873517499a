/**
 Integer arithmetic as the C and C++ sources perform it: fixed-width signed
 types and division that truncates toward zero.
 */
module Machine {

  type int8 = x: int | -0x80 <= x < 0x80
  type int16 = x: int | -0x8000 <= x < 0x8000
  type int32 = x: int | -0x8000_0000 <= x < 0x8000_0000
  type int64 = x: int | -0x8000_0000_0000_0000 <= x < 0x8000_0000_0000_0000

  const INT32_MIN: int := -0x8000_0000
  const INT32_MAX: int := 0x7FFF_FFFF

  predicate FitsInt16(x: int) { -0x8000 <= x < 0x8000 }
  predicate FitsInt32(x: int) { INT32_MIN <= x <= INT32_MAX }

  // The C operator `/`: the quotient is rounded toward zero.
  function TruncDiv(a: int, b: int): (q: int)
    requires b > 0
  {
    if a >= 0 then a / b else -((-a) / b)
  }

  // The C operator `%`: the remainder takes the sign of the dividend.
  function TruncMod(a: int, b: int): (r: int)
    requires b > 0
  {
    a - b * TruncDiv(a, b)
  }

  // Flooring division, for a positive divisor.
  function FloorDiv(a: int, b: int): (q: int)
    requires b > 0
  {
    a / b
  }

  function FloorMod(a: int, b: int): (r: int)
    requires b > 0
    ensures 0 <= r < b
  {
    a % b
  }

  // Truncating division, with the "one less if the remainder is negative"
  // repair that the sources apply, is flooring division.
  lemma TruncRepair(a: int, b: int)
    requires b > 0
    ensures TruncMod(a, b) < 0 ==> TruncDiv(a, b) - 1 == a / b && TruncMod(a, b) + b == a % b
    ensures TruncMod(a, b) >= 0 ==> TruncDiv(a, b) == a / b && TruncMod(a, b) == a % b
  {
    if a < 0 {
      var q, r := (-a) / b, (-a) % b;
      assert -a == q * b + r;
      if r == 0 {
        DivModUnique(a, b, -q, 0);
      } else {
        assert a == (-q - 1) * b + (b - r);
        DivModUnique(a, b, -q - 1, b - r);
      }
    }
  }

  lemma MultipleIsFar(d: int, b: int)
    requires b > 0
    ensures d >= 1 ==> d * b >= b
    ensures d <= -1 ==> d * b <= -b
  {
    if d >= 1 {
      assert (d - 1) * b >= 0;
    } else if d <= -1 {
      assert (-d - 1) * b >= 0;
    }
  }

  lemma DivModUnique(a: int, b: int, q: int, r: int)
    requires b > 0 && 0 <= r < b && a == q * b + r
    ensures a / b == q && a % b == r
  {
    var d := a / b - q;
    MultipleIsFar(d, b);
    assert a == (a / b) * b + a % b;
    assert d * b == (a / b) * b - q * b;
  }
}
