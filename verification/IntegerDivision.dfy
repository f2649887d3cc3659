/** Lua's floored // and % on wrapping integers. */
module IntegerDivision {
  import opened Int64

  /** a // b, rounding toward minus infinity; minint // -1 wraps around. */
  function IntFloorDiv(a: int64, b: int64): (r: int64)
    requires b != 0
  {
    if b == -1 then
      Wrap(0 - a)
    else
      var q := TruncDiv(a, b);
      TruncBounds(a, b);
      if TruncRem(a, b) != 0 && ((a < 0) != (b < 0)) then q - 1 else q
  }

  /** a % b, with the sign of b. */
  function IntMod(a: int64, b: int64): (r: int64)
    requires b != 0
  {
    if b == -1 then
      0
    else
      var m := TruncRem(a, b);
      TruncBounds(a, b);
      if m != 0 && ((m < 0) != (b < 0)) then m + b else m
  }

  /** q and m are the floored quotient and modulo of a by b. */
  ghost predicate Floored(a: int, b: int, q: int, m: int)
    requires b != 0
  {
    && a == q * b + m
    && Abs(m) < Abs(b)
    && (m == 0 || ((m < 0) == (b < 0)))
  }

  lemma SignedProduct(a: int, b: int, q: int, r: int)
    requires Abs(a) == q * Abs(b) + r
    ensures a == (if (a < 0) == (b < 0) then q else -q) * b + (if a < 0 then -r else r)
  {
  }

  lemma TruncBounds(a: int64, b: int64)
    requires b != 0
    ensures b != -1 ==> -TWO63 <= TruncDiv(a, b) < TWO63
    ensures TruncRem(a, b) != 0 ==> -TWO63 < TruncDiv(a, b)
    ensures Abs(TruncRem(a, b)) < Abs(b)
    ensures TruncRem(a, b) != 0 ==> ((TruncRem(a, b) < 0) == (a < 0))
    ensures a == TruncDiv(a, b) * b + TruncRem(a, b)
  {
    hide Quo, Rem;
    var x, y := Abs(a), Abs(b);
    QuoRem(x, y);
    SignedProduct(a, b, Quo(x, y), Rem(x, y));
    if y >= 2 {
      QuotientBound(x, y, Quo(x, y), Rem(x, y), 2, TWO63 / 2);
    }
  }

  /** A quotient q of n >= 0 by a > 0 is at most n / b for b <= a. */
  lemma QuotientBound(n: int, a: int, q: int, r: int, b: int, bound: int)
    requires 0 < b <= a && n == q * a + r && 0 <= r < a && 0 <= n < b * (bound + 1) && 0 <= bound
    ensures 0 <= q <= bound
  {
    if q < 0 { MulMonotone(q, -1, a); }
    if q > bound {
      MulMonotone(bound + 1, q, a);
      MulMonotone(b, a, bound + 1);
    }
  }

  /** // and % are the floored quotient and modulo, but for minint // -1. */
  lemma FlooredMeaning(a: int64, b: int64)
    requires b != 0 && !(a == -TWO63 && b == -1)
    ensures Floored(a, b, IntFloorDiv(a, b), IntMod(a, b))
  {
    TruncBounds(a, b);
    if b == -1 {
      WrapIsIdentity(0 - a);
    } else {
      var q, m := TruncDiv(a, b), TruncRem(a, b);
      assert (q - 1) * b + (m + b) == q * b + m;
    }
  }

  /** The floored quotient and modulo are unique. */
  lemma FlooredUnique(a: int, b: int, q: int, m: int, q': int, m': int)
    requires b != 0 && Floored(a, b, q, m) && Floored(a, b, q', m')
    ensures q == q' && m == m'
  {
    assert (q - q') * b == m' - m by { assert q * b - q' * b == (q - q') * b; }
    if q != q' {
      var y := Abs(b);
      assert Abs(q - q') * y == Abs((q - q') * b) by {
        assert (q - q') * b == -((q' - q) * b) == (q' - q) * -b == -((q - q') * -b);
      }
      MulMonotone(1, Abs(q - q'), y);
      assert false;
    }
  }
}
