/** The part of the virtual machine that numeric loops run on: numbers, the
    instructions that work on them, and one step of the interpreter. */
module Bytecode {
  import opened Wrappers
  import opened Int64
  import opened IntegerDivision

  // ---------- Values ----------

  /** A floating-point number: opaque, known only through FloatOps. */
  datatype Float = Float(bits: int)

  /** Total operations on floats. Nothing is assumed of them but Exact. */
  datatype FloatOps = FloatOps(
    add: (Float, Float) -> Float,
    sub: (Float, Float) -> Float,
    mul: (Float, Float) -> Float,
    div: (Float, Float) -> Float,
    fmod: (Float, Float) -> Float,
    floorDiv: (Float, Float) -> Float,
    neg: Float -> Float,
    eq: (Float, Float) -> bool,
    lt: (Float, Float) -> bool,
    le: (Float, Float) -> bool,
    floor: Float -> Float,
    ceil: Float -> Float,
    single: Float -> Float,
    zero: Float,
    ofInt: int64 -> Float,
    toInt: Float -> Option<int64>,
    unary: (nat, Float) -> Float)
  {
    /** Integers up to 2^53 convert exactly, so that comparing the converted
        float compares the integer; and no float is both above and below 0. */
    ghost predicate Exact() {
      && (forall i: int64, f: Float | ExactFloat(i) ::
            && (eq(f, ofInt(i)) <==> toInt(f) == Some(i))
            && (eq(ofInt(i), f) <==> toInt(f) == Some(i)))
      && (forall f :: !(lt(zero, f) && le(f, zero)))
    }
  }

  predicate ExactFloat(i: int64) {
    -0x20_0000_0000_0000 <= i <= 0x20_0000_0000_0000
  }

  /** A Go function is named by the unary number function it computes; every
      value that is no number, buffer or such a function is Other. */
  datatype Value = Nil | Int(i: int64) | Flt(f: Float) | Buffer(id: nat) | Function(fn: nat) | Other(tag: nat)
  {
    predicate Number?() {
      Int? || Flt?
    }
  }

  function ToFloat(ops: FloatOps, v: Value): Float
    requires v.Number?()
  {
    if v.Int? then ops.ofInt(v.i) else v.f
  }

  /** The integer that a value equals, if it is a number that equals one. */
  function AsInteger(ops: FloatOps, v: Value): Option<int64> {
    match v
    case Int(i) => Some(i)
    case Flt(f) => ops.toInt(f)
    case _ => None
  }

  /** A buffer's memory: floats, single or double, or integers of a width. */
  datatype Memory = Floats(single: bool, fs: seq<Float>) | Ints(bytes: nat, ints: seq<int64>)

  type Frame = map<nat, Value>
  type Heap = map<nat, Memory>

  function Get(frame: Frame, r: nat): Value {
    if r in frame then frame[r] else Nil
  }

  // ---------- Instructions ----------

  /** An RK field: a register or a constant. */
  datatype RK = R(r: nat) | K(k: nat)

  datatype ArithOp = Add | Sub | Mul | Div
  datatype CompareOp = Equal | LessThan | LessOrEqual

  /** Decoded instructions; Jump.a is the level it closes, plus one, and a
      comparison jumps when its result is want. */
  datatype Instr =
    | Move(a: nat, b: nat)
    | LoadConstant(a: nat, bx: nat)
    | Arith(op: ArithOp, a: nat, rb: RK, rc: RK)
    | DivMod(modulo: bool, a: nat, rb: RK, rc: RK)
    | UnaryMinus(a: nat, b: nat)
    | Compare(cmp: CompareOp, want: bool, rb: RK, rc: RK)
    | Jump(a: nat, sbx: int)
    | GetUpValue(a: nat, n: nat)
    | Call(a: nat, args: nat, results: nat)
    | GetTable(a: nat, b: nat, rc: RK)
    | SetTable(a: nat, rb: RK, rc: RK)
    | ForLoop(a: nat, sbx: int)
    | NewTable(a: nat)
    | OtherInstr

  /** A compiled function. */
  datatype Proto = Proto(code: seq<Instr>, constants: seq<Value>)

  /** A function being run, its closure's upvalues, and the floating-point
      unit. */
  datatype Env = Env(p: Proto, upValues: seq<Value>, ops: FloatOps)

  function Constant(p: Proto, k: nat): Value {
    if k < |p.constants| then p.constants[k] else Nil
  }

  function UpValue(env: Env, n: nat): Value {
    if n < |env.upValues| then env.upValues[n] else Nil
  }

  function Operand(env: Env, frame: Frame, field: RK): Value {
    match field
    case R(r) => Get(frame, r)
    case K(k) => Constant(env.p, k)
  }

  // ---------- Arithmetic and comparison of numbers ----------

  function IntArith(op: ArithOp, x: int64, y: int64): int64
    requires !op.Div?
  {
    match op
    case Add => Wrap(x + y)
    case Sub => Wrap(x - y)
    case Mul => Wrap(x * y)
  }

  function FloatArith(ops: FloatOps, op: ArithOp, x: Float, y: Float): Float {
    match op
    case Add => ops.add(x, y)
    case Sub => ops.sub(x, y)
    case Mul => ops.mul(x, y)
    case Div => ops.div(x, y)
  }

  /** Arithmetic on two numbers: on integers if both are, but for /. */
  function NumberArith(ops: FloatOps, op: ArithOp, x: Value, y: Value): Value
    requires x.Number?() && y.Number?()
  {
    if !op.Div? && x.Int? && y.Int? then
      Int(IntArith(op, x.i, y.i))
    else
      Flt(FloatArith(ops, op, ToFloat(ops, x), ToFloat(ops, y)))
  }

  /** % and //, or None where the interpreter raises an error. */
  function NumberDivMod(ops: FloatOps, modulo: bool, x: Value, y: Value): Option<Value>
    requires x.Number?() && y.Number?()
  {
    if x.Int? && y.Int? then
      if y.i == 0 then None
      else Some(Int(if modulo then IntMod(x.i, y.i) else IntFloorDiv(x.i, y.i)))
    else
      var a, b := ToFloat(ops, x), ToFloat(ops, y);
      Some(Flt(if modulo then ops.fmod(a, b) else ops.floorDiv(a, b)))
  }

  function LessIntFloat(ops: FloatOps, i: int64, f: Float): bool {
    if ExactFloat(i) then ops.lt(ops.ofInt(i), f)
    else match ops.toInt(ops.ceil(f))
      case Some(fi) => i < fi
      case None => ops.lt(ops.zero, f)
  }

  function LessOrEqualIntFloat(ops: FloatOps, i: int64, f: Float): bool {
    if ExactFloat(i) then ops.le(ops.ofInt(i), f)
    else match ops.toInt(ops.floor(f))
      case Some(fi) => i <= fi
      case None => ops.lt(ops.zero, f)
  }

  function LessFloatInt(ops: FloatOps, f: Float, i: int64): bool {
    if ExactFloat(i) then ops.lt(f, ops.ofInt(i))
    else match ops.toInt(ops.floor(f))
      case Some(fi) => fi < i
      case None => ops.lt(f, ops.zero)
  }

  function LessOrEqualFloatInt(ops: FloatOps, f: Float, i: int64): bool {
    if ExactFloat(i) then ops.le(f, ops.ofInt(i))
    else match ops.toInt(ops.ceil(f))
      case Some(fi) => fi <= i
      case None => ops.lt(f, ops.zero)
  }

  function FloatCompare(ops: FloatOps, cmp: CompareOp, x: Float, y: Float): bool {
    match cmp
    case Equal => ops.eq(x, y)
    case LessThan => ops.lt(x, y)
    case LessOrEqual => ops.le(x, y)
  }

  function IntCompare(cmp: CompareOp, x: int64, y: int64): bool {
    match cmp
    case Equal => x == y
    case LessThan => x < y
    case LessOrEqual => x <= y
  }

  /** Comparisons of two numbers by mathematical value. */
  function NumberCompare(ops: FloatOps, cmp: CompareOp, x: Value, y: Value): bool
    requires x.Number?() && y.Number?()
  {
    if x.Int? && y.Int? then
      IntCompare(cmp, x.i, y.i)
    else if x.Flt? && y.Flt? then
      FloatCompare(ops, cmp, x.f, y.f)
    else if x.Int? then
      match cmp
      case Equal => ops.toInt(y.f) == Some(x.i)
      case LessThan => LessIntFloat(ops, x.i, y.f)
      case LessOrEqual => LessOrEqualIntFloat(ops, x.i, y.f)
    else
      match cmp
      case Equal => ops.toInt(x.f) == Some(y.i)
      case LessThan => LessFloatInt(ops, x.f, y.i)
      case LessOrEqual => LessOrEqualFloatInt(ops, x.f, y.i)
  }

  // ---------- Buffers ----------

  function Length(m: Memory): nat {
    if m.Floats? then |m.fs| else |m.ints|
  }

  /** What reading a buffer gives: nil unless the key equals a place in it. */
  function BufferAt(ops: FloatOps, m: Memory, key: Value): Value {
    match AsInteger(ops, key)
    case None => Nil
    case Some(i) =>
      if !(0 <= i < Length(m)) then Nil
      else if m.Floats? then Flt(m.fs[i])
      else Int(m.ints[i])
  }

  /** An integer stored in a buffer wraps to its width: int32 or uint8. */
  function Narrow(bytes: nat, n: int64): int64 {
    if bytes == 1 then n % 0x100 else (n + 0x8000_0000) % 0x1_0000_0000 - 0x8000_0000
  }

  function StoreFloat(ops: FloatOps, m: Memory, i: nat, f: Float): Memory
    requires m.Floats? && i < |m.fs|
  {
    m.(fs := m.fs[i := if m.single then ops.single(f) else f])
  }

  function StoreInt(m: Memory, i: nat, n: int64): Memory
    requires m.Ints? && i < |m.ints|
  {
    m.(ints := m.ints[i := Narrow(m.bytes, n)])
  }

  /** putBuffer, or None where it raises an error. */
  function BufferPut(ops: FloatOps, m: Memory, key: Value, v: Value): Option<Memory> {
    match AsInteger(ops, key)
    case None => None
    case Some(i) =>
      if !(0 <= i < Length(m)) || !v.Number?() then None
      else if m.Floats? then Some(StoreFloat(ops, m, i, ToFloat(ops, v)))
      else match AsInteger(ops, v)
        case None => None
        case Some(n) => Some(StoreInt(m, i, n))
  }

  // ---------- The interpreter ----------

  datatype State = State(pc: int, frame: Frame, heap: Heap)

  function Next(s: State, a: nat, v: Value): State {
    State(s.pc + 1, s.frame[a := v], s.heap)
  }

  /** Where the jump at pc goes, if it closes nothing. */
  function JumpFrom(p: Proto, pc: int): Option<int> {
    if 0 <= pc < |p.code| && p.code[pc].Jump? && p.code[pc].a == 0
    then Some(pc + 1 + p.code[pc].sbx) else None
  }

  /** One step of the interpreter with no hooks set, or None where the
      instruction calls a metamethod, raises an error, or is of a kind no
      numeric loop contains. */
  function Step(env: Env, s: State): Option<State> {
    if !(0 <= s.pc < |env.p.code|) then None else
    match env.p.code[s.pc]
    case Move(a, b) => Some(Next(s, a, Get(s.frame, b)))
    case LoadConstant(a, bx) => Some(Next(s, a, Constant(env.p, bx)))
    case Arith(op, a, rb, rc) =>
      var x, y := Operand(env, s.frame, rb), Operand(env, s.frame, rc);
      if x.Number?() && y.Number?() then Some(Next(s, a, NumberArith(env.ops, op, x, y))) else None
    case DivMod(modulo, a, rb, rc) =>
      var x, y := Operand(env, s.frame, rb), Operand(env, s.frame, rc);
      if !(x.Number?() && y.Number?()) then None else
      (match NumberDivMod(env.ops, modulo, x, y)
       case Some(v) => Some(Next(s, a, v))
       case None => None)
    case UnaryMinus(a, b) =>
      (match Get(s.frame, b)
       case Int(i) => Some(Next(s, a, Int(Wrap(0 - i))))
       case Flt(f) => Some(Next(s, a, Flt(env.ops.neg(f))))
       case _ => None)
    case Compare(cmp, want, rb, rc) =>
      var x, y := Operand(env, s.frame, rb), Operand(env, s.frame, rc);
      if !(x.Number?() && y.Number?()) then None
      else if NumberCompare(env.ops, cmp, x, y) != want then Some(s.(pc := s.pc + 2))
      else (match JumpFrom(env.p, s.pc + 1)
            case Some(t) => Some(s.(pc := t))
            case None => None)
    case Jump(_, _) =>
      (match JumpFrom(env.p, s.pc)
       case Some(t) => Some(s.(pc := t))
       case None => None)
    case GetUpValue(a, n) => Some(Next(s, a, UpValue(env, n)))
    case Call(a, args, results) =>
      var f, x := Get(s.frame, a), Get(s.frame, a + 1);
      if f.Function? && x.Number?() && args == 2 && results == 2
      then Some(Next(s, a, Flt(env.ops.unary(f.fn, ToFloat(env.ops, x))))) else None
    case GetTable(a, b, rc) =>
      var t := Get(s.frame, b);
      if t.Buffer? && t.id in s.heap
      then Some(Next(s, a, BufferAt(env.ops, s.heap[t.id], Operand(env, s.frame, rc)))) else None
    case SetTable(a, rb, rc) =>
      var t := Get(s.frame, a);
      if !(t.Buffer? && t.id in s.heap) then None else
      (match BufferPut(env.ops, s.heap[t.id], Operand(env, s.frame, rb), Operand(env, s.frame, rc))
       case Some(m) => Some(State(s.pc + 1, s.frame, s.heap[t.id := m]))
       case None => None)
    case ForLoop(a, sbx) => ForLoopStep(env, s, a, sbx)
    case _ => None
  }

  /** FORLOOP's step, by the kind of its third register; None where the kinds of
      the three do not go together. */
  function ForLoopStep(env: Env, s: State, a: nat, sbx: int): Option<State> {
    var index, limit, step := Get(s.frame, a), Get(s.frame, a + 1), Get(s.frame, a + 2);
    if step.Int? && index.Int? && limit.Int? then
      if ToUint(limit.i) > 0 then
        var next := Int(Wrap(index.i + step.i));
        Some(State(s.pc + 1 + sbx, s.frame[a + 1 := Int(Wrap(ToUint(limit.i) - 1))][a := next][a + 3 := next], s.heap))
      else
        Some(s.(pc := s.pc + 1))
    else if step.Flt? && index.Flt? && limit.Flt? then
      var ops := env.ops;
      var next := ops.add(index.f, step.f);
      if (ops.lt(ops.zero, step.f) && ops.le(next, limit.f)) || (ops.le(step.f, ops.zero) && ops.le(limit.f, next)) then
        Some(State(s.pc + 1 + sbx, s.frame[a := Flt(next)][a + 3 := Flt(next)], s.heap))
      else
        Some(s.(pc := s.pc + 1))
    else None
  }

  /** n steps of the interpreter. */
  function Run(env: Env, s: State, n: nat): Option<State>
    decreases n
  {
    if n == 0 then Some(s)
    else match Step(env, s)
      case None => None
      case Some(s') => Run(env, s', n - 1)
  }

  /** Runs compose. */
  lemma {:induction false} RunCompose(env: Env, s: State, m: nat, s': State, n: nat)
    requires Run(env, s, m) == Some(s')
    ensures Run(env, s, m + n) == Run(env, s', n)
    decreases m
  {
    if m > 0 {
      RunCompose(env, Step(env, s).value, m - 1, s', n);
    }
  }
}
