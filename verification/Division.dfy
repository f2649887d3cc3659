/** Integer % and // by a constant through a multiply: the two ways compiled code
    divides, against Lua's floored operators. */
module Division {
  import opened Wrappers
  import opened Int64
  import opened IntegerDivision
  import opened MagicNumber

  // ---------- Plans ----------

  /** A plan: a shift, or a multiplier with its shift and correction. */
  datatype DivPlan = DivPlan(d: int64, pow2: bool, magic: int64, shift: nat, addN: bool, subN: bool)

  /** The divisors that compiled code does not hand to the divide instruction. */
  predicate Plannable(d: int64) {
    d != 0 && d != 1 && d != -1 && -0x8000_0000 <= d < 0x8000_0000
  }

  predicate IsPow2(d: int) {
    d > 0 && d == Pow2(TrailingZeros(d))
  }

  /** The plan for d, in terms of the least exponent that is enough. */
  function PlanOf(d: int64): (plan: DivPlan)
    requires Plannable(d)
  {
    if IsPow2(d) then
      DivPlan(d, true, 0, TrailingZeros(d), false, false)
    else
      var p := LeastExponent(d, 64);
      var magic := Wrap(SignedMultiplier(d, p));
      DivPlan(d, false, magic, p - 64, d > 0 && magic < 0, d < 0 && magic > 0)
  }

  /** How often the plan adds n to the high half. */
  function Added(plan: DivPlan): int {
    if plan.addN then 1 else if plan.subN then -1 else 0
  }

  /** d & (d-1) clears the lowest one bit of d. */
  lemma {:induction false} LowestBit(d: nat)
    requires d > 0
    ensures And(d, d - 1) == d - Pow2(TrailingZeros(d))
  {
    if d % 2 == 1 {
      AndSelf(d / 2);
      assert d > 1 ==> (d - 1) / 2 == d / 2;
    } else {
      LowestBit(d / 2);
      assert (d - 1) / 2 == d / 2 - 1 && (d - 1) % 2 == 1;
      assert d >= 2;
    }
  }

  lemma {:induction false} AndSelf(a: nat)
    ensures And(a, a) == a
  {
    if a > 0 { AndSelf(a / 2); }
  }

  /** A mask of k ones takes the remainder modulo 2^k, of a negative n too. */
  lemma {:induction false} AndMask(n: int, k: nat)
    ensures And(n, Pow2(k) - 1) == n % Pow2(k)
    decreases k
  {
    if k > 0 {
      var h := Pow2(k - 1);
      AndMask(n / 2, k - 1);
      assert (2 * h - 1) / 2 == h - 1 && (2 * h - 1) % 2 == 1;
      var q, r := (n / 2) / h, (n / 2) % h;
      assert n == 2 * (n / 2) + n % 2;
      assert n / 2 == q * h + r;
      assert q * (2 * h) == 2 * (q * h);
      DivUnique(n, 2 * h, q, 2 * r + n % 2);
    }
  }

  /** The plan for a divisor, for just those that are Plannable. */
  method PlanDivide(d: int64) returns (plan: Option<DivPlan>)
    ensures plan == if Plannable(d) then Some(PlanOf(d)) else None
  {
    if d == 0 || d == 1 || d == -1 || d == -TWO63 || !(-0x8000_0000 <= d < 0x8000_0000) {
      return None;
    }
    if d > 0 {
      LowestBit(d);
    }
    if d > 0 && And(d, d - 1) == 0 {
      return Some(DivPlan(d, true, 0, TrailingZeros(d), false, false));
    }
    var magic, shift := MagicSigned(d);
    return Some(DivPlan(d, false, magic, shift, d > 0 && magic < 0, d < 0 && magic > 0));
  }

  /** What the search found about a plan that multiplies. */
  lemma PlanMagic(d: int64)
    requires Plannable(d) && !PlanOf(d).pow2
    ensures var plan := PlanOf(d); var p := plan.shift + 64;
      && Enough(d, p) && plan.shift <= 62 && -TWO64 < SignedMultiplier(d, p) < TWO64
      && plan.magic == Wrap(SignedMultiplier(d, p))
      && SignedMultiplier(d, p) == plan.magic + Added(plan) * TWO64
  {
    hide Enough, Pow2, LeastExponent, Multiplier;
    MagicExists(d);
    assert PlanOf(d).shift + 64 == LeastExponent(d, 64);
  }

  /** The search's result, as a lemma. */
  lemma MagicExists(d: int64)
    requires 2 <= Abs(d) < TWO63
    ensures var p := LeastExponent(d, 64); Enough(d, p) && p <= 126 && 0 < Multiplier(d, p) < TWO64
  {
    LeastIsEnough(d, 64);
    var p := LeastExponent(d, 64);
    MultiplierFits(d, p);
  }

  lemma {:induction false} LeastIsEnough(d: int64, p: nat)
    requires 2 <= Abs(d) < TWO63 && p <= 126
    ensures var q := LeastExponent(d, p); Enough(d, q) && p <= q <= 126 && (q > p ==> !Enough(d, q - 1))
    decreases 126 - p
  {
    EnoughAt126(d);
    if p < 126 && !Enough(d, p) {
      LeastIsEnough(d, p + 1);
    }
  }

  lemma MultiplierFits(d: int64, p: nat)
    requires 2 <= Abs(d) < TWO63 && 64 <= p <= 126 && (p > 64 ==> !Enough(d, p - 1))
    ensures 0 < Multiplier(d, p) < TWO64
  {
    hide Pow2, Enough, Nc, Tracks, Multiplier;
    var ad, nc := Abs(d), Nc(d);
    NcBounds(d);
    TracksQuotient(p - 1, nc);
    TracksQuotient(p - 1, ad);
    var q2, r2 := Pow2(p - 1) / ad, Pow2(p - 1) % ad;
    SearchRound(d, p - 1, Pow2(p - 1) / nc, Pow2(p - 1) % nc, q2, r2);
    SearchEnd(d, p, Doubled(ad, q2, r2).0, Doubled(ad, q2, r2).1);
  }

  lemma TracksQuotient(p: nat, a: int)
    requires a > 0
    ensures Tracks(p, a, Pow2(p) / a, Pow2(p) % a)
  {
    DivMod(Pow2(p), a);
  }

  // ---------- What compiled code computes ----------

  /** The signed high half of a product of two 64-bit integers. */
  function HighHalf(a: int, b: int): int {
    a * b / TWO64
  }

  /** Correcting the unsigned high half for negative factors gives the signed
      one. */
  lemma SignedHighHalf(a: int64, b: int64)
    ensures HighHalf(ToUint(a), ToUint(b)) - (if a < 0 then b else 0) - (if b < 0 then a else 0)
         == HighHalf(a, b) + (if a < 0 && b < 0 then TWO64 else 0)
  {
    var sa, sb := SignBit(a), SignBit(b);
    assert ToUint(a) == a + sa * TWO64 && ToUint(b) == b + sb * TWO64;
    var k := sa * b + sb * a + sa * sb * TWO64;
    assert ToUint(a) * ToUint(b) == a * b + k * TWO64;
    var q, r := a * b / TWO64, a * b % TWO64;
    DivUnique(a * b + k * TWO64, TWO64, q + k, r);
  }

  /** Adding n to the high half adds 2^64 to the factor. */
  lemma ShiftFactor(n: int, m: int, k: int)
    ensures HighHalf(n, m + k * TWO64) == HighHalf(n, m) + n * k
  {
    var q, r := n * m / TWO64, n * m % TWO64;
    assert n * (m + k * TWO64) == n * m + n * k * TWO64;
    DivUnique(n * (m + k * TWO64), TWO64, q + n * k, r);
  }

  /** Shifting the high half right divides by the larger power. */
  lemma NestedDivision(x: int, s: nat)
    ensures x / TWO64 / Pow2(s) == x / Pow2(64 + s)
  {
    Pow2Constants();
    Pow2Add(64, s);
    NestedDivisionBy(x, TWO64, Pow2(s));
  }

  lemma NestedDivisionBy(x: int, a: int, b: int)
    requires a > 0 && b > 0
    ensures x / a / b == x / (a * b)
  {
    var q, r := x / a, x % a;
    var q', r' := q / b, q % b;
    DivMod(x, a);
    DivMod(q, b);
    MulMonotone(r', b - 1, a);
    MulMonotone(0, r', a);
    MulPositive(a, b);
    NestedSum(x, a, b, q', r', r);
    DivUnique(x, a * b, q', r' * a + r);
  }

  lemma NestedSum(x: int, a: int, b: int, q: int, r': int, r: int)
    requires x == (q * b + r') * a + r
    ensures x == q * (a * b) + (r' * a + r)
    ensures (b - 1) * a == a * b - a
  {
    assert (q * b + r') * a == q * b * a + r' * a;
    assert q * b * a == q * (a * b);
  }

  lemma MulPositive(a: int, b: int)
    requires a > 0 && b > 0
    ensures a * b > 0
  {
  }

  /** The high half of n times a 65-bit signed factor is a 64-bit integer. */
  lemma HighHalfFits(n: int64, m: int)
    requires -TWO64 < m < TWO64
    ensures -TWO63 <= HighHalf(n, m) < TWO63
  {
    ProductBound(n, m);
    var x := n * m;
    assert -TWO63 * TWO64 <= x < TWO63 * TWO64;
  }

  lemma ProductBound(n: int64, m: int)
    requires -TWO64 < m < TWO64
    ensures -(TWO63 * (TWO64 - 1)) <= n * m <= TWO63 * (TWO64 - 1)
  {
    if m >= 0 {
      MulMonotone(-TWO63, n, m);
      MulMonotone(n, TWO63, m);
    } else {
      MulMonotone(-TWO63, n, -m);
      MulMonotone(n, TWO63, -m);
      NegatedProduct(n, m);
    }
  }

  lemma NegatedProduct(n: int, m: int)
    ensures n * m == -(n * -m)
  {
  }

  /** Floor division by a power of two stays in range. */
  lemma ShiftFits(f: int64, s: nat)
    ensures -TWO63 <= f / Pow2(s) < TWO63
    ensures f / Pow2(s) == f || (-TWO63 / 2 <= f / Pow2(s) < TWO63 / 2)
  {
    if s == 0 {
      assert f / 1 == f;
    } else {
      HalfRange(f, Pow2(s));
    }
  }

  lemma HalfRange(f: int64, k: int)
    requires k >= 2
    ensures -TWO63 / 2 <= f / k < TWO63 / 2
  {
    var q := f / k;
    DivMod(f, k);
    HalfRangeOf(f, k, q, f % k);
  }

  lemma HalfRangeOf(f: int64, k: int, q: int, r: int)
    requires k >= 2 && f == q * k + r && 0 <= r < k
    ensures -TWO63 / 2 <= q < TWO63 / 2
  {
    if q >= TWO63 / 2 {
      MulMonotone(TWO63 / 2, q, k);
    }
    if q < -TWO63 / 2 {
      MulMonotone(q, -TWO63 / 2 - 1, k);
    }
  }

  /** The high half of n times the signed multiplier, shifted: what both
      forms of the compiled code compute before their last two steps. */
  lemma ShiftedProduct(d: int64, n: int64)
    requires Plannable(d) && !PlanOf(d).pow2
    ensures var plan := PlanOf(d); var p := plan.shift + 64;
      var h := HighHalf(n, SignedMultiplier(d, p));
      && -TWO63 <= h < TWO63
      && h == HighHalf(n, plan.magic) + n * Added(plan)
      && h / Pow2(plan.shift) == (n * SignedMultiplier(d, p)) / Pow2(p)
  {
    hide Enough, Pow2, LeastExponent, Multiplier, SignedMultiplier, HighHalf;
    PlanMagic(d);
    var plan := PlanOf(d);
    var m := SignedMultiplier(d, plan.shift + 64);
    HighHalfFits(n, m);
    ShiftFactor(n, plan.magic, Added(plan));
    HighHalfShift(n, m, plan.shift);
  }

  lemma HighHalfShift(n: int, m: int, s: nat)
    ensures HighHalf(n, m) / Pow2(s) == (n * m) / Pow2(64 + s)
  {
    NestedDivision(n * m, s);
  }

  /** Shifting and correcting that product gives the truncated quotient, and
      nothing on the way leaves 64 bits. */
  lemma CompiledQuotient(d: int64, n: int64)
    requires Plannable(d) && !PlanOf(d).pow2
    ensures var plan := PlanOf(d);
      var h := HighHalf(n, plan.magic) + n * Added(plan);
      && -TWO63 <= h < TWO63
      && -TWO63 <= h / Pow2(plan.shift) < TWO63
      && h / Pow2(plan.shift) + (if d > 0 then SignBit(n) else SignBit(h / Pow2(plan.shift))) == TruncDiv(n, d)
      && -TWO63 <= TruncDiv(n, d) < TWO63
  {
    hide Enough, Pow2, LeastExponent, Multiplier, SignedMultiplier, HighHalf, TruncDiv;
    ShiftedProduct(d, n);
    PlanMagic(d);
    MagicQuotient(d, PlanOf(d).shift + 64, n);
    ShiftFits(HighHalf(n, PlanOf(d).magic) + n * Added(PlanOf(d)), PlanOf(d).shift);
    TruncBounds(n, d);
  }

  /** From the truncated quotient and its remainder to the floored ones: at most
      one less, and a divisor more. */
  lemma FloorStep(d: int64, n: int64)
    requires Plannable(d)
    ensures var q, r := TruncDiv(n, d), TruncRem(n, d);
      && Wrap(n - Wrap(q * d)) == r
      && -TWO63 <= q < TWO63
      && (if r != 0 && ((r < 0) != (d < 0)) then (q - 1, r + d) else (q, r)) == (IntFloorDiv(n, d), IntMod(n, d))
      && -TWO63 <= IntMod(n, d) < TWO63
  {
    TruncBounds(n, d);
    WrapAdd(n, TruncDiv(n, d) * d);
    WrapIsIdentity(TruncRem(n, d));
  }

  /** Division and remainder by a power of two are a shift and a mask. */
  lemma PowerOfTwo(d: int64, n: int64)
    requires Plannable(d) && PlanOf(d).pow2
    ensures n / Pow2(PlanOf(d).shift) == IntFloorDiv(n, d)
    ensures And(n, d - 1) == IntMod(n, d)
  {
    var q, r := n / d, n % d;
    AndMask(n, PlanOf(d).shift);
    assert n == q * d + r;
    FlooredMeaning(n, d);
    FlooredUnique(n, d, q, r, IntFloorDiv(n, d), IntMod(n, d));
  }

  /** DivRef's corrections of the unsigned high half, wrapping at each step. */
  lemma CorrectedHighHalf(n: int64, plan: DivPlan)
    requires -TWO63 <= HighHalf(n, plan.magic) + n * Added(plan) < TWO63
    requires !(plan.addN && plan.subN)
    ensures var q0 := Wrap(HighHalf(ToUint(n), ToUint(plan.magic)));
      var q1 := if n < 0 then Wrap(q0 - plan.magic) else q0;
      var q2 := if plan.magic < 0 then Wrap(q1 - n) else q1;
      var q3 := if plan.addN then Wrap(q2 + n) else q2;
      var q4 := if plan.subN then Wrap(q3 - n) else q3;
      q4 == HighHalf(n, plan.magic) + n * Added(plan)
  {
    hide HighHalf, ToUint, Wrap;
    var hi := HighHalf(ToUint(n), ToUint(plan.magic));
    var a := if n < 0 then plan.magic else 0;
    var b := if plan.magic < 0 then n else 0;
    WrapAdd(hi, plan.magic);
    WrapAdd(hi - a, n);
    WrapAdd(hi - a - b, n);
    SignedHighHalf(n, plan.magic);
    var h := HighHalf(n, plan.magic) + n * Added(plan);
    WrapCongruent(h, if n < 0 && plan.magic < 0 then 1 else 0);
    WrapIsIdentity(h);
  }

  /** The truncated quotient, by the multiply and its corrections. */
  method RefQuotient(n: int64, plan: DivPlan) returns (q: int64)
    requires Plannable(plan.d) && plan == PlanOf(plan.d) && !plan.pow2
    ensures q == TruncDiv(n, plan.d)
  {
    hide Enough, Pow2, LeastExponent, Multiplier, SignedMultiplier, TruncDiv, And;
    var d := plan.d;
    CompiledQuotient(d, n);
    SignedHighHalf(n, plan.magic);
    var hi := HighHalf(ToUint(n), ToUint(plan.magic));
    q := Wrap(hi);
    if n < 0 {
      q := Wrap(q - plan.magic);
    }
    if plan.magic < 0 {
      q := Wrap(q - n);
    }
    if plan.addN {
      q := Wrap(q + n);
    }
    if plan.subN {
      q := Wrap(q - n);
    }
    CorrectedHighHalf(n, plan);
    q := q / Pow2(plan.shift);
    if d > 0 {
      q := Wrap(q + SignBit(n));
    } else {
      q := Wrap(q + SignBit(q));
    }
    WrapIsIdentity(TruncDiv(n, d));
  }

  /** By any plan, the floored quotient and modulo of any int64. */
  method DivRef(n: int64, plan: DivPlan) returns (quo: int64, rem: int64)
    requires Plannable(plan.d) && plan == PlanOf(plan.d)
    ensures quo == IntFloorDiv(n, plan.d) && rem == IntMod(n, plan.d)
  {
    hide Enough, Pow2, LeastExponent, Multiplier, SignedMultiplier, TruncDiv, TruncRem, IntFloorDiv, IntMod, And;
    var d: int := plan.d;
    if plan.pow2 {
      PowerOfTwo(d, n);
      return n / Pow2(plan.shift), And(n, d - 1);
    }
    var q: int := RefQuotient(n, plan);
    FloorStep(d, n);
    var product: int := q * d;
    var r: int64 := Wrap(n - Wrap(product));
    if r != 0 && ((r < 0) != (d < 0)) {
      r := Wrap(r + d);
      q := Wrap(q - 1);
    }
    WrapIsIdentity(IntFloorDiv(n, d));
    WrapIsIdentity(IntMod(n, d));
    return q, r;
  }

  /** divideByConstant: the arm64 code a plan compiles to, with a signed high
      multiply; the modulo or the quotient of n. */
  function DivideByConstant(modulo: bool, plan: DivPlan, n: int64): int
  {
    if plan.pow2 then
      if modulo then And(n, if plan.d > 0 then plan.d - 1 else 0) else n / Pow2(plan.shift)
    else
      var high := Wrap(HighHalf(n, plan.magic));
      var corrected := if plan.addN then Wrap(high + n) else if plan.subN then Wrap(high - n) else high;
      var shifted := if plan.shift > 0 then corrected / Pow2(plan.shift) else corrected;
      var q := Wrap(shifted + SignBit(if plan.d > 0 then n else shifted));
      FloorFrom(modulo, plan.d, n, q)
  }

  /** What the emitted code makes of a truncated quotient: the floored quotient or
      modulo, in wrapping arithmetic. */
  function FloorFrom(modulo: bool, d: int64, n: int64, q: int): int {
    var r := Wrap(n - Wrap(q * d));
    if r == 0 || (if d > 0 then r >= 0 else r < 0) then
      if modulo then r else q
    else
      if modulo then Wrap(r + d) else Wrap(q - 1)
  }

  /** The arm64 divide instruction and its adjustment, where there is no plan. */
  function DivideInstruction(modulo: bool, d: int64, n: int64): int
    requires d != 0
  {
    FloorFrom(modulo, d, n, Wrap(TruncDiv(n, d)))
  }

  lemma FloorFromExact(modulo: bool, d: int64, n: int64)
    requires Plannable(d)
    ensures FloorFrom(modulo, d, n, TruncDiv(n, d)) == if modulo then IntMod(n, d) else IntFloorDiv(n, d)
  {
    hide Wrap, TruncDiv, TruncRem, IntMod, IntFloorDiv;
    FloorStep(d, n);
    WrapIsIdentity(IntFloorDiv(n, d));
    WrapIsIdentity(IntMod(n, d));
  }

  /** The planned code computes Lua's floored modulo and quotient. */
  lemma DivideByConstantExact(modulo: bool, d: int64, n: int64)
    requires Plannable(d)
    ensures DivideByConstant(modulo, PlanOf(d), n) == if modulo then IntMod(n, d) else IntFloorDiv(n, d)
  {
    hide Enough, Pow2, LeastExponent, Multiplier, SignedMultiplier, TruncDiv, TruncRem, IntFloorDiv, IntMod, And, Wrap, HighHalf, FloorFrom;
    var plan := PlanOf(d);
    if plan.pow2 {
      PowerOfTwo(d, n);
    } else {
      CompiledQuotient(d, n);
      var h := HighHalf(n, plan.magic) + n * Added(plan);
      WrapAdd(HighHalf(n, plan.magic), n);
      WrapIsIdentity(h);
      UnitShift(h, plan.shift);
      WrapIsIdentity(TruncDiv(n, d));
      FloorFromExact(modulo, d, n);
    }
  }

  lemma UnitShift(h: int, s: nat)
    ensures s == 0 ==> h / Pow2(s) == h
  {
  }

  /** So does the divide instruction, minint // -1 included. */
  lemma DivideInstructionExact(modulo: bool, d: int64, n: int64)
    requires d == 1 || d == -1
    ensures DivideInstruction(modulo, d, n) == if modulo then IntMod(n, d) else IntFloorDiv(n, d)
  {
    QuoRem(Abs(n), 1);
    assert TruncDiv(n, d) == if d == 1 then n else 0 - n;
    WrapIsIdentity(n);
    NegateWrapped(0 - n);
    WrapIsIdentity(0);
  }
}
