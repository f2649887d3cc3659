/** The numeric for loop on integers: it runs for just the values it should, and
    its variable never wraps around. */
module ForLoop {
  import opened Wrappers
  import opened Int64

  /** A loop's limit: a float is a real, an infinity or not a number. */
  datatype Limit = Integer(i: int64) | Float(r: real) | PositiveInfinity | NegativeInfinity | NaN

  /** What a value of the loop is compared with. */
  predicate Within(limit: Limit, step: int64, v: int) {
    match limit
    case Integer(i) => if step > 0 then v <= i else v >= i
    case Float(r) => if step > 0 then v as real <= r else v as real >= r
    case PositiveInfinity => step > 0
    case NegativeInfinity => step < 0
    case NaN => false
  }

  /** The loop's k-th value. */
  function At(init: int64, step: int64, k: nat): int {
    init + k * step
  }

  /** The body runs for the k-th value: it is an integer of 64 bits not past the
      limit. */
  predicate RunsFor(init: int64, limit: Limit, step: int64, k: nat) {
    -TWO63 <= At(init, step, k) < TWO63 && Within(limit, step, At(init, step, k))
  }

  /** What the program takes a limit for: NaN for less than any number. */
  function Compared(limit: Limit): Limit {
    if limit == NaN then NegativeInfinity else limit
  }

  const MAX_INT: int64 := 0x7fff_ffff_ffff_ffff
  const MIN_INT: int64 := -0x8000_0000_0000_0000

  function Floor(r: real): int {
    r.Floor
  }

  function Ceil(r: real): int {
    -((-r).Floor)
  }

  /** The limit as an integer, rounded toward the loop's start and clipped, or
      that the loop runs no times. */
  method ForLimit(init: int64, limit: Limit, step: int64) returns (last: int64, skip: bool)
    requires step != 0
    ensures !skip ==> forall v: int :: -TWO63 <= v < TWO63 ==>
      (Within(Compared(limit), step, v) <==> if step > 0 then v <= last else v >= last)
    ensures skip <==> !Within(Compared(limit), step, init)
    ensures !skip ==> if step > 0 then init <= last else init >= last
  {
    match limit {
      case Integer(i) => last := i;
      case Float(r) =>
        var f := if step < 0 then Ceil(r) else Floor(r);
        if -TWO63 <= f < TWO63 {
          last := f;
        } else if 0.0 < r {
          if step < 0 {
            return 0, true;
          }
          last := MAX_INT;
        } else {
          if step > 0 {
            return 0, true;
          }
          last := MIN_INT;
        }
      case PositiveInfinity =>
        if step < 0 {
          return 0, true;
        }
        last := MAX_INT;
      case NegativeInfinity =>
        if step > 0 {
          return 0, true;
        }
        last := MIN_INT;
      case NaN =>
        if step > 0 {
          return 0, true;
        }
        last := MIN_INT;
    }
    skip := if step > 0 then init > last else init < last;
  }

  /** What a prepared loop keeps, with its count where the limit was. */
  datatype Registers = Registers(index: int64, count: int64, step: int64, control: int64)

  datatype Prep = Prepared(r: Registers) | Skipped | StepIsZero

  /** Prepares a loop that runs for any value at all: its count is that of the
      values after the first. */
  method ForPrep(init: int64, limit: Limit, step: int64) returns (p: Prep)
    ensures p == StepIsZero <==> step == 0
    ensures p == Skipped <==> step != 0 && !RunsFor(init, Compared(limit), step, 0)
    ensures p.Prepared? ==>
      && p.r.index == init && p.r.step == step && p.r.control == init
      && forall k: nat :: k <= ToUint(p.r.count) <==> RunsFor(init, Compared(limit), step, k)
  {
    if step == 0 {
      return StepIsZero;
    }
    var last, skip := ForLimit(init, limit, step);
    if skip {
      return Skipped;
    }
    var count := CountLeft(init, last, step);
    forall k: nat
      ensures k <= count <==> RunsFor(init, Compared(limit), step, k)
    {
      CountMeans(init, last, step, count, k);
    }
    return Prepared(Registers(init, Wrap(count), step, init));
  }

  /** How many steps from init stay within last. */
  method CountLeft(init: int64, last: int64, step: int64) returns (count: uint64)
    requires step != 0 && if step > 0 then init <= last else init >= last
    ensures count == (if step > 0 then (last - init) / step else (init - last) / (0 - step))
    ensures ToUint(Wrap(count)) == count
  {
    hide Wrap, ToUint;
    if step > 0 {
      UintDifference(last, init);
      count := ToUint(ToUint(last) - ToUint(init));
      QuotientSmaller(last - init, step);
      if step != 1 {
        count := count / step;
      }
    } else {
      UintDifference(init, last);
      UintNegation(step);
      count := ToUint(ToUint(init) - ToUint(last));
      QuotientSmaller(init - last, 0 - step);
      count := count / ToUint(ToUint(0 - (step + 1)) + 1);
    }
    WrapUint(count);
  }

  lemma UintDifference(a: int64, b: int64)
    requires a >= b
    ensures ToUint(ToUint(a) - ToUint(b)) == a - b
  {
  }

  lemma UintNegation(step: int64)
    requires step < 0
    ensures ToUint(ToUint(0 - (step + 1)) + 1) == 0 - step
  {
  }

  lemma WrapUint(n: uint64)
    ensures ToUint(Wrap(n)) == n
  {
  }

  lemma QuotientSmaller(n: nat, d: int)
    requires d > 0
    ensures 0 <= n / d <= n && n / 1 == n
  {
    QuotientBound(n, d, 0);
    QuotientBound(n, d, n + 1);
    AtLeast(n + 1, d);
  }

  lemma AtLeast(a: nat, d: int)
    requires d > 0
    ensures a * d >= a && 0 * d == 0
  {
  }

  lemma CountMeans(init: int64, last: int64, step: int64, count: int, k: nat)
    requires step != 0 && if step > 0 then init <= last else init >= last
    requires count == if step > 0 then (last - init) / step else (init - last) / (0 - step)
    ensures k <= count <==> if step > 0 then At(init, step, k) <= last else At(init, step, k) >= last
    ensures if step > 0 then At(init, step, k) >= init else At(init, step, k) <= init
  {
    if step > 0 {
      QuotientBound(last - init, step, k);
      Signs(k, step);
    } else {
      QuotientBound(init - last, 0 - step, k);
      Signs(k, 0 - step);
      assert k * (0 - step) == 0 - k * step;
    }
  }

  lemma Signs(k: nat, d: int)
    requires d > 0
    ensures k * d >= 0
  {
  }

  lemma QuotientBound(n: nat, d: int, k: nat)
    requires d > 0
    ensures k <= n / d <==> k * d <= n
  {
    var q, r := n / d, n % d;
    assert n == q * d + r;
    if k <= q {
      assert k * d <= q * d;
    } else {
      assert k * d >= (q + 1) * d == q * d + d;
    }
  }

  /** FORLOOP: the loop goes on while its count is not 0. */
  function Next(r: Registers): Option<Registers> {
    if ToUint(r.count) > 0 then
      var index := Wrap(r.index + r.step);
      Some(Registers(index, Wrap(ToUint(r.count) - 1), r.step, index))
    else None
  }

  /** The control variables of the body's runs, from the one about to be. */
  function Values(r: Registers): (vs: seq<int64>)
    decreases ToUint(r.count)
  {
    if ToUint(r.count) > 0 then
      NextCount(r.count);
      [r.control] + Values(Next(r).value)
    else [r.control]
  }

  lemma NextCount(count: int64)
    requires ToUint(count) > 0
    ensures ToUint(Wrap(ToUint(count) - 1)) == ToUint(count) - 1
  {
  }

  /** FORLOOP counts through the loop's values in order, none of them wrapped. */
  lemma {:induction false} ValuesInOrder(r: Registers, init: int64, done: nat)
    requires r.control == r.index == At(init, r.step, done)
    requires forall k: nat :: k <= done + ToUint(r.count) ==> -TWO63 <= At(init, r.step, k) < TWO63
    ensures |Values(r)| == ToUint(r.count) + 1
    ensures forall k :: 0 <= k < |Values(r)| ==> Values(r)[k] == At(init, r.step, done + k)
    decreases ToUint(r.count)
  {
    hide ToUint, At;
    if ToUint(r.count) > 0 {
      NextCount(r.count);
      NextAt(init, r.step, done);
      assert -TWO63 <= At(init, r.step, done + 1) < TWO63;
      WrapFits(At(init, r.step, done + 1));
      ValuesInOrder(Next(r).value, init, done + 1);
    }
  }

  lemma WrapFits(v: int)
    requires -TWO63 <= v < TWO63
    ensures Wrap(v) == v
  {
  }

  lemma NextAt(init: int64, step: int64, k: nat)
    ensures At(init, step, k + 1) == At(init, step, k) + step
  {
  }

  /** The whole loop: the body runs for all the values that are integers of 64
      bits within the limit as the program takes it, and only those, in order. */
  method Loop(init: int64, limit: Limit, step: int64) returns (values: seq<int64>, ok: bool)
    ensures ok == (step != 0)
    ensures ok ==> forall k: nat :: k < |values| <==> RunsFor(init, Compared(limit), step, k)
    ensures forall k :: 0 <= k < |values| ==> values[k] == At(init, step, k)
  {
    var p := ForPrep(init, limit, step);
    if !p.Prepared? {
      forall k: nat | p.Skipped?
        ensures !RunsFor(init, Compared(limit), step, k)
      {
        FirstRuns(init, Compared(limit), step, k);
      }
      return [], p.Skipped?;
    }
    forall k: nat | k <= 0 + ToUint(p.r.count)
      ensures -TWO63 <= At(init, step, k) < TWO63
    {
      assert RunsFor(init, Compared(limit), step, k);
    }
    ValuesInOrder(p.r, init, 0);
    return Values(p.r), true;
  }

  /** Those are the values the manual asks for just where the limit is a number
      or the step is positive: a loop down to NaN runs, and should not. */
  lemma LimitExact(init: int64, limit: Limit, step: int64)
    requires step != 0
    ensures (forall k: nat :: RunsFor(init, Compared(limit), step, k) <==> RunsFor(init, limit, step, k)) <==>
            !(limit == NaN && step < 0)
  {
    if limit == NaN && step < 0 {
      assert RunsFor(init, Compared(limit), step, 0) && !RunsFor(init, limit, step, 0);
    }
  }

  /** A loop that runs at all runs for its initial value. */
  lemma FirstRuns(init: int64, limit: Limit, step: int64, k: nat)
    requires step != 0
    ensures RunsFor(init, limit, step, k) ==> RunsFor(init, limit, step, 0)
  {
  }
}
