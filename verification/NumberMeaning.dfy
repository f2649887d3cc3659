/** What arithmetic and comparison of numbers mean: integers modulo 2^64, and integers
    and floats compared by mathematical value. */
module NumberMeaning {
  import opened Wrappers
  import opened Int64
  import opened IntegerDivision
  import opened Bytecode

  // ---------- Arithmetic ----------

  /** Integers wrap: a result is the mathematical one modulo 2^64. */
  lemma IntArithMeans(x: int64, y: int64)
    ensures exists k: int :: IntArith(Add, x, y) == x + y + k * 0x1_0000_0000_0000_0000
    ensures exists k: int :: IntArith(Sub, x, y) == x - y + k * 0x1_0000_0000_0000_0000
    ensures exists k: int :: IntArith(Mul, x, y) == x * y + k * 0x1_0000_0000_0000_0000
  {
    WrapMeans(x + y);
    WrapMeans(x - y);
    WrapMeans(x * y);
  }

  lemma WrapMeans(n: int)
    ensures exists k: int :: Wrap(n) == n + k * 0x1_0000_0000_0000_0000
  {
    var k := 0 - (n + TWO63) / TWO64;
    assert Wrap(n) == n + k * 0x1_0000_0000_0000_0000;
  }

  /** On two floats, or one, each operator is the float operation of its name; so is /
      on integers. */
  lemma FloatArithMeans(ops: FloatOps, x: Value, y: Value)
    requires x.Number?() && y.Number?() && (x.Flt? || y.Flt?)
    ensures
      var a, b := if x.Int? then ops.ofInt(x.i) else x.f, if y.Int? then ops.ofInt(y.i) else y.f;
      && NumberArith(ops, Add, x, y) == Flt(ops.add(a, b)) && NumberArith(ops, Sub, x, y) == Flt(ops.sub(a, b))
      && NumberArith(ops, Mul, x, y) == Flt(ops.mul(a, b)) && NumberArith(ops, Div, x, y) == Flt(ops.div(a, b))
  {
  }

  lemma DivideMeans(ops: FloatOps, x: int64, y: int64)
    ensures NumberArith(ops, Div, Int(x), Int(y)) == Flt(ops.div(ops.ofInt(x), ops.ofInt(y)))
    ensures NumberArith(ops, Add, Int(x), Int(y)) == Int(IntArith(Add, x, y))
    ensures NumberArith(ops, Sub, Int(x), Int(y)) == Int(IntArith(Sub, x, y))
    ensures NumberArith(ops, Mul, Int(x), Int(y)) == Int(IntArith(Mul, x, y))
  {
  }

  // ---------- Comparison ----------

  /** What a number is worth. */
  datatype Worth = Finite(r: real) | PlusInf | MinusInf | NotANumber

  predicate Less(a: Worth, b: Worth) {
    match (a, b)
    case (Finite(x), Finite(y)) => x < y
    case (Finite(_), PlusInf) => true
    case (MinusInf, Finite(_)) => true
    case (MinusInf, PlusInf) => true
    case _ => false
  }

  predicate Same(a: Worth, b: Worth) {
    a == b && !a.NotANumber?
  }

  /** The operations are those of floats: comparisons go by worth, integers up to 2^53
      convert exactly, and floor and ceil round to integers. */
  ghost predicate Faithful(ops: FloatOps, worth: Float -> Worth) {
    && (forall f, g :: Compares(ops, worth, f, g)) && (forall i: int64 :: Converts(ops, worth, i))
    && (forall f, i: int64 :: Integral(ops, worth, f, i)) && (forall f :: Rounds(ops, worth, f))
    && worth(ops.zero) == Finite(0.0)
  }

  predicate Compares(ops: FloatOps, worth: Float -> Worth, f: Float, g: Float) {
    && (ops.lt(f, g) <==> Less(worth(f), worth(g)))
    && (ops.le(f, g) <==> Less(worth(f), worth(g)) || Same(worth(f), worth(g)))
    && (ops.eq(f, g) <==> Same(worth(f), worth(g)))
  }

  predicate Converts(ops: FloatOps, worth: Float -> Worth, i: int64) {
    ExactFloat(i) ==> worth(ops.ofInt(i)) == Finite(i as real)
  }

  predicate Integral(ops: FloatOps, worth: Float -> Worth, f: Float, i: int64) {
    ops.toInt(f) == Some(i) <==> worth(f) == Finite(i as real)
  }

  predicate Rounds(ops: FloatOps, worth: Float -> Worth, f: Float) {
    && worth(ops.floor(f)) == (if worth(f).Finite? then Finite(worth(f).r.Floor as real) else worth(f))
    && worth(ops.ceil(f)) == (if worth(f).Finite? then Finite(Ceil(worth(f).r) as real) else worth(f))
  }

  function Ceil(r: real): int {
    -((-r).Floor)
  }

  function WorthOf(worth: Float -> Worth, v: Value): Worth
    requires v.Number?()
  {
    if v.Int? then Finite(v.i as real) else worth(v.f)
  }

  /** Comparing any two numbers compares what they are worth, an integer past 2^53 with
      a float, with an infinity and with NaN included. */
  lemma CompareMeans(ops: FloatOps, worth: Float -> Worth, x: Value, y: Value)
    requires Faithful(ops, worth) && x.Number?() && y.Number?()
    ensures NumberCompare(ops, LessThan, x, y) <==> Less(WorthOf(worth, x), WorthOf(worth, y))
    ensures NumberCompare(ops, LessOrEqual, x, y) <==>
      Less(WorthOf(worth, x), WorthOf(worth, y)) || Same(WorthOf(worth, x), WorthOf(worth, y))
    ensures NumberCompare(ops, Equal, x, y) <==> Same(WorthOf(worth, x), WorthOf(worth, y))
  {
    hide Faithful;
    if x.Int? && y.Flt? {
      IntFloat(ops, worth, x.i, y.f);
    } else if x.Flt? && y.Int? {
      FloatInt(ops, worth, x.f, y.i);
    } else if x.Flt? {
      TwoFloats(ops, worth, x.f, y.f);
    }
  }

  lemma TwoFloats(ops: FloatOps, worth: Float -> Worth, f: Float, g: Float)
    requires Faithful(ops, worth)
    ensures Compares(ops, worth, f, g)
  {
    hide Compares, Converts, Integral, Rounds;
  }

  /** What the conversions and roundings of f say. */
  lemma Rounded(ops: FloatOps, worth: Float -> Worth, f: Float)
    requires Faithful(ops, worth)
    ensures ops.lt(ops.zero, f) <==> Less(Finite(0.0), worth(f))
    ensures ops.lt(f, ops.zero) <==> Less(worth(f), Finite(0.0))
    ensures ops.toInt(ops.floor(f)) == if worth(f).Finite? then InRange(worth(f).r.Floor) else None
    ensures ops.toInt(ops.ceil(f)) == if worth(f).Finite? then InRange(Ceil(worth(f).r)) else None
  {
    Instances(ops, worth, f);
    hide Faithful;
    IntegerWorth(ops, worth, ops.floor(f));
    IntegerWorth(ops, worth, ops.ceil(f));
  }

  function InRange(n: int): Option<int64> {
    if -TWO63 <= n < TWO63 then Some(n as int64) else None
  }

  lemma Instances(ops: FloatOps, worth: Float -> Worth, f: Float)
    requires Faithful(ops, worth)
    ensures Compares(ops, worth, ops.zero, f) && Compares(ops, worth, f, ops.zero) && Rounds(ops, worth, f)
    ensures worth(ops.zero) == Finite(0.0)
  {
    hide Compares, Converts, Integral, Rounds;
  }

  /** A float that is worth an integer converts to it, if it is in range, and no other
      converts. */
  lemma IntegerWorth(ops: FloatOps, worth: Float -> Worth, f: Float)
    requires Faithful(ops, worth)
    ensures worth(f).Finite? && worth(f).r.Floor as real == worth(f).r ==> ops.toInt(f) == InRange(worth(f).r.Floor)
    ensures !worth(f).Finite? ==> ops.toInt(f) == None
  {
    hide Faithful;
    if ops.toInt(f).Some? {
      EqualWorth(ops, worth, ops.toInt(f).value, f);
    }
    if worth(f).Finite? && InRange(worth(f).r.Floor).Some? {
      EqualWorth(ops, worth, InRange(worth(f).r.Floor).value, f);
    }
  }

  lemma ExactWorth(ops: FloatOps, worth: Float -> Worth, i: int64, f: Float)
    requires Faithful(ops, worth) && ExactFloat(i)
    ensures ops.lt(ops.ofInt(i), f) <==> Less(Finite(i as real), worth(f))
    ensures ops.lt(f, ops.ofInt(i)) <==> Less(worth(f), Finite(i as real))
    ensures ops.le(ops.ofInt(i), f) <==> Less(Finite(i as real), worth(f)) || Same(Finite(i as real), worth(f))
    ensures ops.le(f, ops.ofInt(i)) <==> Less(worth(f), Finite(i as real)) || Same(worth(f), Finite(i as real))
  {
    hide Faithful;
    ConvertedWorth(ops, worth, i);
    TwoFloats(ops, worth, ops.ofInt(i), f);
    TwoFloats(ops, worth, f, ops.ofInt(i));
  }

  lemma ConvertedWorth(ops: FloatOps, worth: Float -> Worth, i: int64)
    requires Faithful(ops, worth)
    ensures Converts(ops, worth, i)
  {
    hide Compares, Converts, Integral, Rounds;
  }

  lemma EqualWorth(ops: FloatOps, worth: Float -> Worth, i: int64, f: Float)
    requires Faithful(ops, worth)
    ensures ops.toInt(f) == Some(i) <==> Same(Finite(i as real), worth(f))
  {
    IntegralAt(ops, worth, f, i);
    hide Faithful;
  }

  lemma IntegralAt(ops: FloatOps, worth: Float -> Worth, f: Float, i: int64)
    requires Faithful(ops, worth)
    ensures Integral(ops, worth, f, i)
  {
    hide Compares, Converts, Integral, Rounds;
  }

  lemma IntFloat(ops: FloatOps, worth: Float -> Worth, i: int64, f: Float)
    requires Faithful(ops, worth)
    ensures LessIntFloat(ops, i, f) <==> Less(Finite(i as real), worth(f))
    ensures LessOrEqualIntFloat(ops, i, f) <==> Less(Finite(i as real), worth(f)) || Same(Finite(i as real), worth(f))
    ensures ops.toInt(f) == Some(i) <==> Same(Finite(i as real), worth(f))
  {
    hide Faithful;
    EqualWorth(ops, worth, i, f);
    Rounded(ops, worth, f);
    if ExactFloat(i) {
      ExactWorth(ops, worth, i, f);
    }
  }

  lemma FloatInt(ops: FloatOps, worth: Float -> Worth, f: Float, i: int64)
    requires Faithful(ops, worth)
    ensures LessFloatInt(ops, f, i) <==> Less(worth(f), Finite(i as real))
    ensures LessOrEqualFloatInt(ops, f, i) <==> Less(worth(f), Finite(i as real)) || Same(worth(f), Finite(i as real))
    ensures ops.toInt(f) == Some(i) <==> Same(worth(f), Finite(i as real))
  {
    hide Faithful;
    EqualWorth(ops, worth, i, f);
    Rounded(ops, worth, f);
    if ExactFloat(i) {
      ExactWorth(ops, worth, i, f);
    }
  }

  /** A value equals an integer just where it is a number worth that integer. */
  lemma AsIntegerMeans(ops: FloatOps, worth: Float -> Worth, v: Value, i: int64)
    requires Faithful(ops, worth)
    ensures AsInteger(ops, v) == Some(i) <==> v.Number?() && Same(WorthOf(worth, v), Finite(i as real))
  {
    hide Faithful;
    if v.Flt? {
      EqualWorth(ops, worth, i, v.f);
    }
  }
}
