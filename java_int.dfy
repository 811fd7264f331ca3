/** Java's 32-bit two's-complement `int`: every `+`, `-` and `*` on `int`
    values in the modelled code wraps around modulo 2^32. */
module JavaInt {

  const TWO_32: int := 0x1_0000_0000
  const INT_MIN: int := -0x8000_0000
  const INT_MAX: int := 0x7FFF_FFFF

  type Int32 = x: int | INT_MIN <= x <= INT_MAX

  /** The value Java stores for the mathematical integer `x`. */
  function Wrap32(x: int): (r: Int32)
    ensures (r - x) % TWO_32 == 0
    ensures INT_MIN <= x <= INT_MAX ==> r == x
  {
    (x - INT_MIN) % TWO_32 + INT_MIN
  }

  function Add32(a: Int32, b: Int32): Int32 { Wrap32(a + b) }
  function Sub32(a: Int32, b: Int32): Int32 { Wrap32(a - b) }
  function Mul32(a: Int32, b: Int32): Int32 { Wrap32(a * b) }

  /** Two integers congruent modulo 2^32 are stored as the same `int`. */
  lemma WrapCongruent(x: int, k: int)
    ensures Wrap32(x + TWO_32 * k) == Wrap32(x)
  {
    var y := x + TWO_32 * k;
    var q := (x - INT_MIN) / TWO_32;
    var r := (x - INT_MIN) % TWO_32;
    assert y - INT_MIN == TWO_32 * (q + k) + r;
    DivModUnique(y - INT_MIN, q + k, r);
  }

  lemma DivModUnique(n: int, q: int, r: int)
    requires 0 <= r < TWO_32 && n == TWO_32 * q + r
    ensures n % TWO_32 == r
  {
  }

  /** Wrapping an intermediate sum does not change the wrapped total. */
  lemma WrapAddLeft(x: int, y: int)
    ensures Wrap32(Wrap32(x) + y) == Wrap32(x + y)
  {
    var k := (Wrap32(x) - x) / TWO_32;
    assert Wrap32(x) == x + TWO_32 * k;
    WrapCongruent(x + y, k);
  }

  lemma WrapAdd(x: int, y: int)
    ensures Wrap32(Wrap32(x) + Wrap32(y)) == Wrap32(x + y)
  {
    WrapAddLeft(x, Wrap32(y));
    WrapAddLeft(y, x);
  }

  /** Adding congruent values to congruent values gives congruent sums. */
  lemma WrapAddCongruent(a: int, b: int, y: int, z: int)
    requires Wrap32(a) == Wrap32(b) && Wrap32(y) == Wrap32(z)
    ensures Wrap32(a + y) == Wrap32(b + z)
  {
    WrapAdd(a, y);
    WrapAdd(b, z);
  }

  lemma WrapSub(x: int, y: int)
    ensures Wrap32(Wrap32(x) - Wrap32(y)) == Wrap32(x - y)
  {
    var wy: int := Wrap32(y);
    WrapAddLeft(x, -wy);
    var k := (wy - y) / TWO_32;
    assert x - wy == (x - y) + TWO_32 * (-k);
    WrapCongruent(x - y, -k);
  }

  lemma WrapMul(x: int, y: int)
    ensures Wrap32(Wrap32(x) * Wrap32(y)) == Wrap32(x * y)
  {
    var a := (Wrap32(x) - x) / TWO_32;
    var b := (Wrap32(y) - y) / TWO_32;
    assert Wrap32(x) == x + TWO_32 * a;
    assert Wrap32(y) == y + TWO_32 * b;
    calc {
      Wrap32(x) * Wrap32(y);
      (x + TWO_32 * a) * (y + TWO_32 * b);
      x * y + TWO_32 * (a * y + x * b + TWO_32 * a * b);
    }
    WrapCongruent(x * y, a * y + x * b + TWO_32 * a * b);
  }

  /** Subtracting what was just added gives the original `int` back,
      whatever wrapped in between. */
  lemma AddSubCancel(a: Int32, b: Int32)
    ensures Sub32(Add32(a, b), b) == a
  {
    WrapSub(a + b, b);
  }

  lemma SubAddCancel(a: Int32, b: Int32)
    ensures Add32(Sub32(a, b), b) == a
  {
    WrapAddLeft(a - b, b);
  }

  /** Doubling always gives an even `int`, even when it wraps. */
  lemma DoubleIsEven(x: Int32)
    ensures Mul32(2, x) % 2 == 0
  {
    var k := (Wrap32(2 * x) - 2 * x) / TWO_32;
    assert Wrap32(2 * x) == 2 * (x + 0x8000_0000 * k);
  }
}
