/** Go's 64-bit integers on top of unbounded ones: wrap-around, truncating
    division and the bit operations the modelled code uses. */
module Int64 {

  const TWO63: int := 0x8000_0000_0000_0000
  const TWO64: int := 0x1_0000_0000_0000_0000

  type int64 = x: int | -0x8000_0000_0000_0000 <= x < 0x8000_0000_0000_0000
  type uint64 = x: int | 0 <= x < 0x1_0000_0000_0000_0000

  /** The int64 that agrees with x modulo 2^64. */
  function Wrap(x: int): (r: int64)
  {
    (x + TWO63) % TWO64 - TWO63
  }

  /** Go's conversion to uint64. */
  function ToUint(x: int): (r: uint64)
  {
    x % TWO64
  }

  function Abs(x: int): nat {
    if x < 0 then -x else x
  }

  function Pow2(k: nat): (r: nat)
    ensures r >= 1
  {
    if k == 0 then 1 else 2 * Pow2(k - 1)
  }

  /** Division of magnitudes. */
  function Quo(x: nat, y: nat): int
    requires y > 0
  {
    x / y
  }

  function Rem(x: nat, y: nat): int
    requires y > 0
  {
    x % y
  }

  /** Go's / on integers, which truncates toward zero. */
  function TruncDiv(a: int, b: int): int
    requires b != 0
  {
    var q := Quo(Abs(a), Abs(b));
    if (a < 0) == (b < 0) then q else -q
  }

  /** Go's %, the remainder that / leaves, with the dividend's sign. */
  function TruncRem(a: int, b: int): int
    requires b != 0
  {
    var r := Rem(Abs(a), Abs(b));
    if a < 0 then -r else r
  }

  /** Two's complement a & b for a non-negative b, bit by bit. */
  function And(a: int, b: nat): nat
    decreases b
  {
    if b == 0 then 0 else 2 * And(a / 2, b / 2) + (if a % 2 == 1 && b % 2 == 1 then 1 else 0)
  }

  /** The number of zero bits below the lowest one. */
  function TrailingZeros(d: nat): nat
    requires d > 0
  {
    if d % 2 == 1 then 0 else 1 + TrailingZeros(d / 2)
  }

  lemma WrapIsIdentity(x: int)
    requires -TWO63 <= x < TWO63
    ensures Wrap(x) == x
  {
  }

  lemma WrapCongruent(x: int, k: int)
    ensures Wrap(x + k * TWO64) == Wrap(x)
  {
  }

  /** The quotient and remainder of Euclidean division are unique. */
  lemma DivUnique(a: int, b: int, q: int, r: int)
    requires b > 0 && a == q * b + r && 0 <= r < b
    ensures a / b == q && a % b == r
  {
    var q', r' := a / b, a % b;
    assert (q - q') * b == r' - r by {
      assert a == q' * b + r';
      assert (q - q') * b == q * b - q' * b;
    }
    if q - q' >= 1 {
      MulMonotone(1, q - q', b);
      assert false;
    } else if q - q' <= -1 {
      MulMonotone(q - q', -1, b);
      assert false;
    }
  }

  lemma QuoRem(x: nat, y: nat)
    requires y > 0
    ensures x == Quo(x, y) * y + Rem(x, y) && 0 <= Rem(x, y) < y && 0 <= Quo(x, y)
    ensures y == 1 ==> Quo(x, y) == x && Rem(x, y) == 0
    ensures x == 0 ==> Quo(x, y) == 0
  {
  }

  lemma NonNegativeQuotient(n: int, a: int, q: int, r: int)
    requires a > 0 && n == q * a + r && 0 <= r < a && 0 <= n
    ensures 0 <= q
  {
  }

  lemma DivMod(a: int, b: int)
    requires b > 0
    ensures a == (a / b) * b + a % b && 0 <= a % b < b
  {
  }

  lemma MulMonotone(x: int, y: int, b: int)
    requires x <= y && 0 <= b
    ensures x * b <= y * b
  {
  }

  lemma MulLess(x: int, y: int, b: int)
    requires x < y && 0 < b
    ensures x * b < y * b
  {
  }

  /** Wrapped operands give the wrapped result: + and - of 64-bit integers
      may be computed exactly and wrapped once. */
  lemma WrapAdd(x: int, y: int)
    ensures Wrap(Wrap(x) + y) == Wrap(x + y)
    ensures Wrap(x + Wrap(y)) == Wrap(x + y)
    ensures Wrap(Wrap(x) - y) == Wrap(x - y)
    ensures Wrap(x - Wrap(y)) == Wrap(x - y)
  {
    var kx, ky := WrapOffset(x), WrapOffset(y);
    WrapCongruent(x + y, kx);
    WrapCongruent(x + y, ky);
    WrapCongruent(x - y, kx);
    WrapCongruent(x - y, -ky);
  }

  /** Wrapping adds a multiple of 2^64. */
  ghost function WrapOffset(x: int): (k: int)
    ensures Wrap(x) == x + k * TWO64
  {
    -((x + TWO63) / TWO64)
  }

  lemma Pow2Add(a: nat, b: nat)
    ensures Pow2(a + b) == Pow2(a) * Pow2(b)
  {
    if a > 0 {
      Pow2Add(a - 1, b);
    }
  }

  lemma Pow2Monotone(a: nat, b: nat)
    requires a <= b
    ensures Pow2(a) <= Pow2(b)
  {
  }

  lemma Pow2Constants()
    ensures Pow2(31) == 0x8000_0000
    ensures Pow2(63) == TWO63 && Pow2(64) == TWO64 && Pow2(126) == TWO63 * TWO63
  {
    assert Pow2(8) == 0x100;
    Pow2Add(8, 8);
    Pow2Add(16, 16);
    Pow2Add(32, 32);
    Pow2Add(63, 63);
    assert Pow2(64) == 2 * Pow2(63);
    assert Pow2(32) == 2 * Pow2(31);
  }
}
