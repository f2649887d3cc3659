/** The magic-number search of Hacker's Delight, chapter 10, and why multiplying
    by what it finds divides. */
module MagicNumber {
  import opened Int64
  import opened IntegerDivision

  // ---------- The magic number ----------

  function SignBit(d: int): nat {
    if d < 0 then 1 else 0
  }

  /** |nc|: the largest value below 2^63, or 2^63 + 1 for a negative d, that
      leaves remainder |d| - 1. */
  function Nc(d: int64): (r: int)
    requires d != 0
  {
    var t := TWO63 + SignBit(d);
    t - 1 - t % Abs(d)
  }

  lemma NcBounds(d: int64)
    requires 2 <= Abs(d) < TWO63
    ensures Abs(d) - 1 <= Nc(d) <= TWO63 && 2 <= Nc(d)
    ensures Nc(d) + 1 + (TWO63 + SignBit(d)) % Abs(d) == TWO63 + SignBit(d)
  {
    var ad := Abs(d);
    var t := TWO63 + SignBit(d);
    var k := t / ad;
    assert t == k * ad + t % ad;
    assert Nc(d) == k * ad - 1;
    if k <= 0 { MulMonotone(k, 0, ad); assert false; }
    MulMonotone(1, k, ad);
  }

  /** 2^p is large enough for the multiplier of d to give exact quotients. */
  predicate Enough(d: int64, p: nat)
    requires d != 0
  {
    Pow2(p) > Nc(d) * (Abs(d) - Pow2(p) % Abs(d))
  }

  /** 2^p / |d| rounded up. */
  function Multiplier(d: int64, p: nat): int
    requires d != 0
  {
    Pow2(p) / Abs(d) + 1
  }

  /** The signed multiplier: the multiplier with the sign of d. */
  function SignedMultiplier(d: int64, p: nat): int
    requires d != 0
  {
    if d < 0 then -Multiplier(d, p) else Multiplier(d, p)
  }

  /** The least exponent from p on that is enough. */
  function LeastExponent(d: int64, p: nat): (r: nat)
    requires d != 0
    ensures p <= r && (p <= 126 ==> r <= 126)
    decreases 126 - p
  {
    if p >= 126 || Enough(d, p) then p else LeastExponent(d, p + 1)
  }

  lemma {:induction false} LeastExponentIsLeast(d: int64, p: nat, q: nat)
    requires d != 0 && p <= q <= 126 && (q == 126 || Enough(d, q))
    requires forall i :: p <= i < q ==> !Enough(d, i)
    ensures LeastExponent(d, p) == q
    decreases q - p
  {
    if p < q {
      LeastExponentIsLeast(d, p + 1, q);
    }
  }

  lemma EnoughAt126(d: int64)
    requires 2 <= Abs(d) < TWO63
    ensures Enough(d, 126)
  {
    Pow2Constants();
    NcBounds(d);
    var delta := Abs(d) - Pow2(126) % Abs(d);
    assert 1 <= delta < TWO63;
    calc {
      Nc(d) * delta;
      <= { MulMonotone(Nc(d), TWO63, delta); }
      TWO63 * delta;
      < { MulLess(delta, TWO63, TWO63); }
      TWO63 * TWO63;
    }
  }

  /** One doubling of a quotient and remainder, as the search keeps them. */
  lemma Doubling(p: nat, a: int, q: int, r: int, q': int, r': int)
    requires a > 0 && Pow2(p) == q * a + r && 0 <= r < a
    requires (q', r') == if 2 * r >= a then (2 * q + 1, 2 * r - a) else (2 * q, 2 * r)
    ensures Pow2(p + 1) == q' * a + r' && 0 <= r' < a
    ensures Pow2(p + 1) / a == q' && Pow2(p + 1) % a == r'
  {
    assert (2 * q) * a == 2 * (q * a);
    assert (2 * q + 1) * a == 2 * (q * a) + a;
    DivUnique(Pow2(p + 1), a, q', r');
  }

  /** q1 * nc + r1 > delta * nc is a comparison of quotients. */
  lemma CompareQuotients(nc: int, q1: int, r1: int, delta: int)
    requires nc > 0 && 0 <= r1 < nc
    ensures (q1 > delta || (q1 == delta && r1 != 0)) <==> q1 * nc + r1 > nc * delta
  {
    if q1 > delta {
      MulMonotone(delta + 1, q1, nc);
      assert (delta + 1) * nc == delta * nc + nc;
    } else if q1 < delta {
      MulMonotone(q1 + 1, delta, nc);
      assert (q1 + 1) * nc == q1 * nc + nc;
    }
  }

  /** q and r are the quotient and remainder of 2^p by a. */
  ghost predicate Tracks(p: nat, a: int, q: int, r: int) {
    Pow2(p) == q * a + r && 0 <= r < a
  }

  /** While the search goes on, the quotients double without overflow. */
  lemma FirstFits(d: int64, q1: int, r1: int, q2: int, r2: int)
    requires 2 <= Abs(d) < TWO63
    requires Tracks(63, Nc(d), q1, r1) && Tracks(63, Abs(d), q2, r2)
    ensures 0 <= q1 < TWO63 && 0 <= q2 < TWO63 - 1
  {
    NcBounds(d);
    Pow2Constants();
    QuotientBound(TWO63, Nc(d), q1, r1, 2, TWO63 / 2);
    QuotientBound(TWO63, Abs(d), q2, r2, 2, TWO63 / 2);
  }

  lemma LaterFits(d: int64, p: nat, q1: int, r1: int, q2: int, r2: int)
    requires 2 <= Abs(d) < TWO63 && 63 <= p && !Enough(d, p)
    requires Tracks(p, Nc(d), q1, r1) && Tracks(p, Abs(d), q2, r2)
    ensures 0 <= q1 < TWO63 && 0 <= q2 < TWO63
    ensures q2 == TWO63 - 1 ==> 2 * r2 < Abs(d)
  {
    NcBounds(d);
    DivUnique(Pow2(p), Abs(d), q2, r2);
    QuotientBelow(Pow2(p), Nc(d), q1, r1, Abs(d) - r2);
    NonNegativeQuotient(Pow2(p), Nc(d), q1, r1);
    NonNegativeQuotient(Pow2(p), Abs(d), q2, r2);
    if q2 >= TWO63 {
      SecondQuotientTight(d, q2, r2);
      PowerNotMultiple(d, p);
      assert false;
    }
    if q2 == TWO63 - 1 {
      LargestQuotient(d, r2);
    }
  }

  /** The second quotient can only reach 2^63 - 1 with a small remainder, so
      that doubling it leaves room for the multiplier. */
  lemma LargestQuotient(d: int64, r2: int)
    requires 2 <= Abs(d) < TWO63 && 0 <= r2
    requires (TWO63 - 1) * Abs(d) + r2 <= Nc(d) * (Abs(d) - r2)
    ensures 2 * r2 < Abs(d)
  {
    NcBounds(d);
    var ad, nc := Abs(d), Nc(d);
    assert nc * (ad - r2) == nc * ad - nc * r2;
    MulMonotone(nc, TWO63, ad);
    MulMonotone(2, nc, r2);
  }

  lemma QuotientBelow(n: int, a: int, q: int, r: int, bound: int)
    requires a > 0 && n == q * a + r && 0 <= r && n <= a * bound
    ensures q <= bound
  {
    if q > bound { MulLess(bound, q, a); }
  }

  /** Only |nc| = 2^63 could let the second quotient reach 2^63. */
  lemma SecondQuotientTight(d: int64, q2: int, r2: int)
    requires 2 <= Abs(d) < TWO63 && 0 <= r2 < Abs(d)
    requires TWO63 <= q2 && q2 * Abs(d) + r2 <= Nc(d) * (Abs(d) - r2)
    ensures Nc(d) == TWO63 && q2 == TWO63 && r2 == 0
  {
    NcBounds(d);
    var ad, nc := Abs(d), Nc(d);
    MulMonotone(TWO63, q2, ad);
    assert nc * (ad - r2) == nc * ad - nc * r2;
    MulMonotone(0, r2, nc);
    MulMonotone(nc, TWO63, ad);
    assert nc * ad == TWO63 * ad;
    assert nc == TWO63 by { if nc < TWO63 { MulLess(nc, TWO63, ad); } }
    assert r2 == 0 by { if r2 > 0 { MulMonotone(1, r2, nc); } }
    assert q2 == TWO63 by { if q2 > TWO63 { MulMonotone(TWO63 + 1, q2, ad); } }
  }

  lemma EvenProduct(k: int, a: int)
    requires a % 2 == 0
    ensures (k * a) % 2 == 0
  {
    assert a == 2 * (a / 2);
    assert k * a == 2 * (k * (a / 2));
  }

  /** |nc| = 2^63 needs |d| to divide the odd 2^63 + 1, so 2^63 * |d| is no
      power of two. */
  lemma PowerNotMultiple(d: int64, p: nat)
    requires 2 <= Abs(d) < TWO63 && Nc(d) == TWO63 && 63 <= p
    ensures Pow2(p) != TWO63 * Abs(d)
  {
    hide Pow2, Nc;
    var ad := Abs(d);
    var f := Pow2(p - 63);
    assert Pow2(p) == TWO63 * f by {
      Pow2Constants();
      Pow2Add(63, p - 63);
    }
    OddDivisor(d);
    OddPower(p - 63);
    if f < ad { MulLess(f, ad, TWO63); } else { MulLess(ad, f, TWO63); }
  }

  lemma OddPower(k: nat)
    ensures Pow2(k) % 2 == 1 ==> Pow2(k) == 1
  {
  }

  lemma OddDivisor(d: int64)
    requires 2 <= Abs(d) < TWO63 && Nc(d) == TWO63
    ensures Abs(d) % 2 == 1
  {
    var ad := Abs(d);
    assert d < 0 && (TWO63 + 1) % ad == 0;
    DivMod(TWO63 + 1, ad);
    if ad % 2 == 0 {
      EvenProduct((TWO63 + 1) / ad, ad);
    }
  }

  /** The quotient and remainder after one doubling. */
  ghost function Doubled(a: int, q: int, r: int): (int, int) {
    if 2 * r >= a then (2 * q + 1, 2 * r - a) else (2 * q, 2 * r)
  }

  lemma SearchStart(d: int64)
    requires 2 <= Abs(d) < TWO63
    ensures Nc(d) > 0 && Tracks(63, Nc(d), TWO63 / Nc(d), TWO63 % Nc(d))
    ensures Tracks(63, Abs(d), TWO63 / Abs(d), TWO63 % Abs(d))
    ensures 0 <= TWO63 / Nc(d) < TWO63 && 0 <= TWO63 / Abs(d) < TWO63
  {
    hide Pow2, Nc;
    NcBounds(d);
    assert Pow2(63) == TWO63 by { Pow2Constants(); }
    DivMod(TWO63, Nc(d));
    DivMod(TWO63, Abs(d));
    FirstFits(d, TWO63 / Nc(d), TWO63 % Nc(d), TWO63 / Abs(d), TWO63 % Abs(d));
  }

  lemma SearchEnd(d: int64, p: nat, q2: int, r2: int)
    requires 2 <= Abs(d) < TWO63 && Tracks(p, Abs(d), q2, r2)
    ensures Multiplier(d, p) == q2 + 1
    ensures Wrap(SignedMultiplier(d, p)) == if d < 0 then Wrap(0 - Wrap(q2 + 1)) else Wrap(q2 + 1)
  {
    DivUnique(Pow2(p), Abs(d), q2, r2);
    NegateWrapped(q2 + 1);
  }

  lemma UnsignedMagnitude(d: int64)
    requires d != 0
    ensures (if d < 0 then ToUint(0 - ToUint(d)) else ToUint(d)) == Abs(d)
    ensures var t := TWO63 + SignBit(d); t - 1 - t % Abs(d) == Nc(d)
  {
    hide Nc;
    assert d < 0 ==> ToUint(d) == d + TWO64;
    NcFormula(d);
  }

  lemma NcFormula(d: int64)
    requires d != 0
    ensures var t := TWO63 + SignBit(d); t - 1 - t % Abs(d) == Nc(d)
  {
  }

  lemma NegateWrapped(x: int)
    ensures Wrap(0 - Wrap(x)) == Wrap(-x)
  {
    WrapAdd(0, x);
  }

  /** One round of the search: the variables fit in uint64, follow 2^(p+1),
      and the test on them decides Enough. */
  lemma SearchRound(d: int64, p: nat, q1: int, r1: int, q2: int, r2: int)
    requires 2 <= Abs(d) < TWO63 && 63 <= p <= 125
    requires Tracks(p, Nc(d), q1, r1) && Tracks(p, Abs(d), q2, r2)
    requires p == 63 || !Enough(d, p)
    ensures 0 <= q1 < TWO63 && 0 <= q2 < TWO63
    ensures 0 <= Doubled(Abs(d), q2, r2).0 < TWO64 - 1
    ensures var (q1', r1') := Doubled(Nc(d), q1, r1); var (q2', r2') := Doubled(Abs(d), q2, r2);
      && Tracks(p + 1, Nc(d), q1', r1') && Tracks(p + 1, Abs(d), q2', r2')
      && q2' == Pow2(p + 1) / Abs(d)
      && ((q1' > Abs(d) - r2' || (q1' == Abs(d) - r2' && r1' != 0)) <==> Enough(d, p + 1))
  {
    NcBounds(d);
    if p == 63 { FirstFits(d, q1, r1, q2, r2); } else { LaterFits(d, p, q1, r1, q2, r2); }
    var (q1', r1') := Doubled(Nc(d), q1, r1);
    var (q2', r2') := Doubled(Abs(d), q2, r2);
    Doubling(p, Nc(d), q1, r1, q1', r1');
    Doubling(p, Abs(d), q2, r2, q2', r2');
    CompareQuotients(Nc(d), q1', r1', Abs(d) - r2');
  }

  /** The multiplier and the shift of Hacker's Delight for signed division by
      d: those of the least exponent that is enough. The uint64 variables
      never overflow. */
  method MagicSigned(d: int64) returns (magic: int64, shift: nat)
    requires 2 <= Abs(d) < TWO63
    ensures shift + 64 == LeastExponent(d, 64)
    ensures magic == Wrap(SignedMultiplier(d, shift + 64))
  {
    hide Enough, Pow2, LeastExponent, Multiplier, SignedMultiplier, Wrap;
    SearchStart(d);
    var ad: uint64 := ToUint(d);
    if d < 0 {
      ad := ToUint(0 - ad);
    }
    var t: uint64 := TWO63 + SignBit(d);
    UnsignedMagnitude(d);
    var anc: uint64 := t - 1 - t % ad;
    var p := 63;
    var q1: uint64, r1: uint64 := TWO63 / anc, TWO63 % anc;
    var q2: uint64, r2: uint64 := TWO63 / ad, TWO63 % ad;
    while true
      invariant ad == Abs(d) && anc == Nc(d)
      invariant 63 <= p <= 125 && (p == 63 || !Enough(d, p))
      invariant forall i :: 64 <= i <= p ==> !Enough(d, i)
      invariant Tracks(p, anc, q1, r1) && Tracks(p, ad, q2, r2)
      decreases 126 - p
    {
      SearchRound(d, p, q1, r1, q2, r2);
      EnoughAt126(d);
      p := p + 1;
      q1, r1 := 2 * q1, 2 * r1;
      if r1 >= anc {
        q1, r1 := q1 + 1, r1 - anc;
      }
      q2, r2 := 2 * q2, 2 * r2;
      if r2 >= ad {
        q2, r2 := q2 + 1, r2 - ad;
      }
      var delta: uint64 := ad - r2;
      if q1 > delta || (q1 == delta && r1 != 0) {
        break;
      }
    }
    LeastExponentIsLeast(d, 64, p);
    var m: int64 := Wrap(q2 + 1);
    SearchEnd(d, p, q2, r2);
    if d < 0 {
      m := Wrap(0 - m);
    }
    return m, p - 64;
  }

  // ---------- Why the quotient is exact ----------

  /** How far |d| * Multiplier overshoots 2^p. */
  function Excess(d: int64, p: nat): int
    requires d != 0
  {
    Abs(d) - Pow2(p) % Abs(d)
  }

  lemma ExcessBounds(d: int64, p: nat)
    requires 2 <= Abs(d) < TWO63
    ensures 1 <= Excess(d, p) <= Abs(d)
    ensures Multiplier(d, p) * Abs(d) == Pow2(p) + Excess(d, p)
  {
    var q := Pow2(p) / Abs(d);
    assert (q + 1) * Abs(d) == q * Abs(d) + Abs(d);
  }

  /** The largest x, when its remainder is |d| - 1. */
  lemma ErrorAtTop(d: int64, p: nat)
    requires 2 <= d <= 0x8000_0000 && 64 <= p && Enough(d, p)
    requires TWO63 % d == d - 1
    ensures Excess(d, p) * TWO63 <= Pow2(p)
  {
    hide Pow2;
    ExcessBounds(d, p);
    assert Nc(d) == TWO63 - d;
    assert Pow2(p) == TWO63 * Pow2(p - 63) by {
      Pow2Constants();
      Pow2Add(63, p - 63);
    }
    TopArithmetic(Excess(d, p), d, Pow2(p - 63));
  }

  lemma TopArithmetic(e: int, d: int, f: int)
    requires 0 <= e <= d <= 0x8000_0000 && (TWO63 - d) * e < TWO63 * f
    ensures e * TWO63 <= TWO63 * f
  {
    assert (TWO63 - d) * e == TWO63 * e - d * e;
    MulMonotone(e, d, d);
    MulMonotone(d, 0x8000_0000, d);
  }

  /** x past |nc| is a remainder's worth past it. */
  lemma PastNc(d: int64, x: int)
    requires 2 <= Abs(d) < TWO63 && Nc(d) < x <= TWO63 + SignBit(d)
    ensures Rem(x, Abs(d)) == x - Nc(d) - 1
  {
    NcBounds(d);
    var ad := Abs(d);
    var t := TWO63 + SignBit(d);
    var k := t / ad;
    assert t == k * ad + t % ad;
    DivUnique(x, ad, k, x - Nc(d) - 1);
  }

  /** The rounding error of the multiplier is too small to reach the next
      quotient. */
  lemma ErrorSmall(d: int64, p: nat, x: int)
    requires 2 <= Abs(d) <= 0x8000_0000 && 64 <= p && Enough(d, p)
    requires 0 <= x <= TWO63
    ensures Excess(d, p) * x <= Pow2(p) * (Abs(d) - Rem(x, Abs(d)))
    ensures x < TWO63 + SignBit(d) ==> Excess(d, p) * x < Pow2(p) * (Abs(d) - Rem(x, Abs(d)))
  {
    hide Pow2, Quo, Rem;
    ExcessBounds(d, p);
    NcBounds(d);
    QuoRem(x, Abs(d));
    var ad, nc, e, k := Abs(d), Nc(d), Excess(d, p), Pow2(p);
    assert nc * e < k;
    if x <= nc {
      ErrorBelow(e, nc, k, x, ad - Rem(x, ad));
    } else {
      PastNc(d, x);
      var r := Rem(x, ad);
      if r < ad - 1 {
        assert x == nc + (1 + r);
        ErrorPast(e, nc, k, 1 + r, ad - r);
      } else {
        assert x == TWO63 + SignBit(d) && d > 0;
        ErrorAtTop(d, p);
        assert k * (ad - r) == k;
      }
    }
  }

  lemma ErrorBelow(e: int, nc: int, k: int, x: int, gap: int)
    requires 0 <= e && 0 < k && nc * e < k && 0 <= x <= nc && 1 <= gap
    ensures e * x < k * gap
  {
    MulMonotone(x, nc, e);
    MulMonotone(1, gap, k);
  }

  lemma ErrorPast(e: int, nc: int, k: int, y: int, gap: int)
    requires 0 <= e && 0 < k && nc * e < k && 0 <= y <= nc && 2 <= gap
    ensures e * (nc + y) < k * gap
  {
    assert e * (nc + y) == nc * e + y * e;
    MulMonotone(y, nc, e);
    MulMonotone(2, gap, k);
  }

  /** m * x lies between the quotient's multiple of 2^p and the next one. */
  lemma Scaled(d: int64, p: nat, x: int)
    requires 2 <= Abs(d) <= 0x8000_0000 && 64 <= p && Enough(d, p)
    requires 0 <= x <= TWO63
    ensures var s := Multiplier(d, p) * x - Pow2(p) * Quo(x, Abs(d));
      && 0 <= s <= Pow2(p) && (x > 0 ==> 0 < s) && (x < TWO63 + SignBit(d) ==> s < Pow2(p))
  {
    hide Pow2, Enough, Nc, Multiplier, Excess, Quo, Rem;
    QuoRem(x, Abs(d));
    ExcessBounds(d, p);
    ErrorSmall(d, p, x);
    var ad, m, k, e := Abs(d), Multiplier(d, p), Pow2(p), Excess(d, p);
    var q, r := Quo(x, ad), Rem(x, ad);
    ScaledError(m, x, k, q, r, ad, e);
    if x > 0 { MulMonotone(1, x, e); } else { assert e * x == 0; }
    assert 0 <= e * x;
    ScaledBounds(m * x - k * q, ad, k, r, e * x);
  }

  lemma ScaledError(m: int, x: int, k: int, q: int, r: int, ad: int, e: int)
    requires m * ad == k + e && x == ad * q + r
    ensures (m * x - k * q) * ad == k * r + e * x
  {
    calc {
      (m * x - k * q) * ad;
      m * x * ad - k * q * ad;
      { assert m * x * ad == (m * ad) * x; }
      (k + e) * x - k * q * ad;
      k * x + e * x - k * (ad * q);
      { assert k * x - k * (ad * q) == k * (x - ad * q); }
      k * r + e * x;
    }
  }

  lemma ScaledBounds(s: int, ad: int, k: int, r: int, error: int)
    requires 0 < ad && 0 < k && 0 <= r < ad && 0 <= error
    requires s * ad == k * r + error && error <= k * (ad - r)
    ensures 0 <= s <= k && (0 < error ==> 0 < s) && (error < k * (ad - r) ==> s < k)
  {
    assert k * (ad - r) == k * ad - k * r;
    MulMonotone(0, r, k);
    if s < 0 { MulMonotone(s, -1, ad); }
    if s > k { MulLess(k, s, ad); }
    if s == 0 { assert s * ad == 0; }
  }

  /** Multiply, shift, and add one to a negative quotient: the truncated
      quotient. */
  lemma MagicQuotient(d: int64, p: nat, n: int64)
    requires 2 <= Abs(d) <= 0x8000_0000 && 64 <= p && Enough(d, p)
    ensures var f := (n * SignedMultiplier(d, p)) / Pow2(p);
      f + (if d > 0 then SignBit(n) else SignBit(f)) == TruncDiv(n, d)
  {
    hide Pow2, Enough, Multiplier, Quo;
    Scaled(d, p, Abs(n));
    QuoRem(Abs(n), Abs(d));
    QuotientOfProduct(n, d, Multiplier(d, p), Pow2(p), Quo(Abs(n), Abs(d)));
  }

  lemma QuotientOfProduct(n: int, d: int, m: int, k: int, q: int)
    requires d != 0 && k > 0 && 0 <= q
    requires var s := m * Abs(n) - k * q; 0 <= s <= k && (n != 0 ==> 0 < s) && (n >= 0 || d < 0 ==> s < k)
    requires n == 0 ==> q == 0
    ensures var f := (n * (if d < 0 then -m else m)) / k;
      f + (if d > 0 then SignBit(n) else SignBit(f)) == if (n < 0) == (d < 0) then q else -q
  {
    var s := m * Abs(n) - k * q;
    var product := n * (if d < 0 then -m else m);
    if n == 0 {
      assert product == 0;
      DivUnique(product, k, 0, 0);
    } else if (n < 0) == (d < 0) {
      assert product == m * Abs(n);
      DivUnique(product, k, q, s);
    } else {
      assert product == -(m * Abs(n));
      assert (-q - 1) * k == -(k * q) - k;
      DivUnique(product, k, -q - 1, k - s);
    }
  }
}
