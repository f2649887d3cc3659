/** Specialised code: arithmetic with its operand kinds fixed, and a multiply
    fused with the addition after it, runs as the original does. */
module Specialise {
  import opened Wrappers
  import opened Int64
  import opened Bytecode

  /** An instruction after specialisation: as it was, or arithmetic with the kinds
      of its operands fixed. */
  datatype Exec = Plain(i: Instr)
                | RR(op: ArithOp, a: nat, b: nat, c: nat)
                | RegConst(op: ArithOp, a: nat, b: nat, k: nat)
                | ConstReg(op: ArithOp, a: nat, k: nat, c: nat)
                | MulAdd(a: nat, b: nat, k: nat)

  /** One instruction, without regard to its neighbours. */
  function SpecialOf(i: Instr): Exec {
    match i
    case Arith(op, a, R(b), R(c)) => RR(op, a, b, c)
    case Arith(op, a, R(b), K(k)) => RegConst(op, a, b, k)
    case Arith(op, a, K(k), R(c)) => ConstReg(op, a, k, c)
    case _ => Plain(i)
  }

  /** A multiplication by a constant that feeds the addition after it. */
  predicate Feeds(i: Exec, next: Exec) {
    i.RegConst? && i.op.Mul? && next.RR? && next.op.Add? && next.b == i.a
  }

  /** What specialised code has at pc. */
  function ExecAt(code: seq<Instr>, pc: nat): Exec
    requires pc < |code|
  {
    var i := SpecialOf(code[pc]);
    if pc + 1 < |code| && Feeds(i, SpecialOf(code[pc + 1])) then MulAdd(i.a, i.b, i.k) else i
  }

  function Specials(code: seq<Instr>): (r: seq<Exec>)
    ensures |r| == |code| && forall q :: 0 <= q < |code| ==> r[q] == SpecialOf(code[q])
  {
    seq(|code|, q requires 0 <= q < |code| => SpecialOf(code[q]))
  }

  method SpecialiseCode(code: seq<Instr>) returns (exec: seq<Exec>)
    ensures |exec| == |code| && forall pc :: 0 <= pc < |code| ==> exec[pc] == ExecAt(code, pc)
  {
    exec := [];
    var pc := 0;
    while pc < |code|
      invariant 0 <= pc <= |code| && exec == Specials(code[..pc])
    {
      exec := exec + [SpecialOf(code[pc])];
      assert code[..pc + 1] == code[..pc] + [code[pc]];
      pc := pc + 1;
    }
    var plain := exec;
    assert code[..pc] == code && plain == Specials(code);
    exec := FuseMulAdd(plain);
    forall q: nat | q < |code|
      ensures exec[q] == ExecAt(code, q)
    {
      assert plain[q] == SpecialOf(code[q]);
      assert q + 1 < |code| ==> plain[q + 1] == SpecialOf(code[q + 1]);
      assert exec[q] == FusedAt(plain, q);
    }
  }

  /** An instruction that feeds the next is fused with it. */
  function FusedAt(code: seq<Exec>, pc: nat): Exec
    requires pc < |code|
  {
    var i := code[pc];
    if pc + 1 < |code| && Feeds(i, code[pc + 1]) then MulAdd(i.a, i.b, i.k) else i
  }

  /** Marks each multiplication that feeds the addition after it, which stays in
      place. */
  method FuseMulAdd(code: seq<Exec>) returns (exec: seq<Exec>)
    ensures |exec| == |code| && forall pc :: 0 <= pc < |code| ==> exec[pc] == FusedAt(code, pc)
  {
    exec := code;
    var pc := 0;
    while pc + 1 < |exec|
      invariant 0 <= pc && |exec| == |code| && (forall q :: pc <= q < |code| ==> exec[q] == code[q])
      invariant forall q :: 0 <= q < pc && q < |code| ==> exec[q] == FusedAt(code, q)
    {
      if Feeds(exec[pc], exec[pc + 1]) {
        exec := exec[pc := MulAdd(exec[pc].a, exec[pc].b, exec[pc].k)];
      }
      pc := pc + 1;
    }
  }

  /** Just the arithmetic with a register among its operands is specialised. */
  lemma SpecialExact(i: Instr)
    ensures SpecialOf(i).Plain? <==> !(i.Arith? && (i.rb.R? || i.rc.R?))
    ensures SpecialOf(i).Plain? ==> SpecialOf(i).i == i
  {
  }

  /** A multiplication of a register by a constant is fused just where an addition of its
      register and another comes next. */
  lemma FusedExact(code: seq<Instr>, pc: nat)
    requires pc < |code|
    ensures ExecAt(code, pc).MulAdd? <==>
      && code[pc].Arith? && code[pc].op == Mul && code[pc].rb.R? && code[pc].rc.K?
      && pc + 1 < |code| && code[pc + 1].Arith? && code[pc + 1].op == Add
      && code[pc + 1].rb == R(code[pc].a) && code[pc + 1].rc.R?
    ensures ExecAt(code, pc).MulAdd? ==> ExecAt(code, pc) == MulAdd(code[pc].a, code[pc].rb.r, code[pc].rc.k)
  {
  }

  // ---------- Running ----------

  /** Registers and everything else that running changes. */
  datatype Machine = Machine(pc: int, frame: Frame, world: int)

  /** What running code meets: constants, the floating-point unit, whether hooks
      are set, and all that arithmetic on other values and other instructions do. */
  datatype Setting = Setting(constants: seq<Value>, ops: FloatOps, hooks: bool,
                             slow: (ArithOp, Value, Value, Frame, int) -> (Value, Frame, int),
                             other: (Instr, Machine) -> Option<Machine>)
  {
    /** The slow path of arithmetic computes on numbers what the fast paths do, and
        does nothing else. */
    ghost predicate Lawful() {
      forall op, x: Value, y: Value, frame, world :: x.Number?() && y.Number?() ==>
        slow(op, x, y, frame, world) == (NumberArith(ops, op, x, y), frame, world)
    }

    function Const(k: nat): Value {
      if k < |constants| then constants[k] else Nil
    }

    function Field(frame: Frame, field: RK): Value {
      match field
      case R(r) => Get(frame, r)
      case K(k) => Const(k)
    }

    /** Two floats, two integers, or for / two numbers, and the slow path for the
        rest: the result goes in register a. */
    function ArithInto(m: Machine, op: ArithOp, a: nat, x: Value, y: Value): Machine {
      if x.Flt? && y.Flt? then Machine(m.pc + 1, m.frame[a := Flt(FloatArith(ops, op, x.f, y.f))], m.world)
      else if !op.Div? && x.Int? && y.Int? then Machine(m.pc + 1, m.frame[a := Int(IntArith(op, x.i, y.i))], m.world)
      else if op.Div? && x.Number?() && y.Number?() then
        Machine(m.pc + 1, m.frame[a := Flt(FloatArith(ops, op, ToFloat(ops, x), ToFloat(ops, y)))], m.world)
      else
        var (v, frame, world) := slow(op, x, y, m.frame, m.world);
        Machine(m.pc + 1, frame[a := v], world)
    }

    /** On numbers it is the arithmetic of numbers, and changes nothing else; on anything
        else the slow path is taken. */
    lemma ArithMeans(m: Machine, op: ArithOp, a: nat, x: Value, y: Value)
      requires Lawful()
      ensures
        if x.Number?() && y.Number?() then
          ArithInto(m, op, a, x, y) == Machine(m.pc + 1, m.frame[a := NumberArith(ops, op, x, y)], m.world)
        else
          var (v, frame, world) := slow(op, x, y, m.frame, m.world);
          ArithInto(m, op, a, x, y) == Machine(m.pc + 1, frame[a := v], world)
    {
    }

    /** One step of the original code. */
    function CodeStep(code: seq<Instr>, m: Machine): Option<Machine> {
      if !(0 <= m.pc < |code|) then None else
      match code[m.pc]
      case Arith(op, a, rb, rc) => Some(ArithInto(m, op, a, Field(m.frame, rb), Field(m.frame, rc)))
      case i => other(i, m)
    }

    /** One step of specialised code. */
    function ExecStep(exec: seq<Exec>, m: Machine): Option<Machine> {
      if !(0 <= m.pc < |exec|) then None else
      match exec[m.pc]
      case Plain(i) =>
        (match i
         case Arith(op, a, rb, rc) => Some(ArithInto(m, op, a, Field(m.frame, rb), Field(m.frame, rc)))
         case _ => other(i, m))
      case RR(op, a, b, c) => Some(ArithInto(m, op, a, Get(m.frame, b), Get(m.frame, c)))
      case RegConst(op, a, b, k) => Some(ArithInto(m, op, a, Get(m.frame, b), Const(k)))
      case ConstReg(op, a, k, c) => Some(ArithInto(m, op, a, Const(k), Get(m.frame, c)))
      case MulAdd(a, b, k) => Some(MulAddStep(exec, m, a, b, k))
    }

    /** The fused step: if every operand is a float it adds, too, and skips the
        addition. */
    function MulAddStep(exec: seq<Exec>, m: Machine, a: nat, b: nat, k: nat): Machine {
      var x, y := Get(m.frame, b), Const(k);
      if x.Flt? && y.Flt? then
        var r := ops.mul(x.f, y.f);
        var frame := m.frame[a := Flt(r)];
        if !hooks && 0 <= m.pc + 1 < |exec| && exec[m.pc + 1].RR? then
          var j := exec[m.pc + 1];
          var d := Get(frame, j.c);
          if d.Flt? then Machine(m.pc + 2, frame[j.a := Flt(ops.add(r, d.f))], m.world)
          else Machine(m.pc + 1, frame, m.world)
        else Machine(m.pc + 1, frame, m.world)
      else
        var (v, frame, world) := slow(Mul, x, y, m.frame, m.world);
        Machine(m.pc + 1, frame[a := v], world)
    }

    function CodeRun(code: seq<Instr>, m: Machine, n: nat): Option<Machine>
      decreases n
    {
      if n == 0 then Some(m)
      else match CodeStep(code, m)
        case None => None
        case Some(next) => CodeRun(code, next, n - 1)
    }

    function ExecRun(exec: seq<Exec>, m: Machine, n: nat): Option<Machine>
      decreases n
    {
      if n == 0 then Some(m)
      else match ExecStep(exec, m)
        case None => None
        case Some(next) => ExecRun(exec, next, n - 1)
    }
  }

  /** exec is specialised code. */
  ghost predicate Specialised(code: seq<Instr>, exec: seq<Exec>) {
    |exec| == |code| && forall pc :: 0 <= pc < |code| ==> exec[pc] == ExecAt(code, pc)
  }

  /** One step of specialised code is one of the original, from any pc, or two
      where a multiplication and the addition after it run together. */
  lemma StepSimulates(e: Setting, code: seq<Instr>, exec: seq<Exec>, m: Machine) returns (n: nat)
    requires e.Lawful() && Specialised(code, exec)
    ensures 1 <= n <= 2 && (n == 2 ==> !e.hooks) && e.CodeRun(code, m, n) == e.ExecStep(exec, m)
  {
    n := 1;
    OneStep(e, code, m);
    if 0 <= m.pc < |code| && exec[m.pc].MulAdd? {
      n := FusedSimulates(e, code, exec, m);
    }
  }

  lemma OneStep(e: Setting, code: seq<Instr>, m: Machine)
    ensures e.CodeRun(code, m, 1) == e.CodeStep(code, m)
  {
  }

  lemma FusedSimulates(e: Setting, code: seq<Instr>, exec: seq<Exec>, m: Machine) returns (n: nat)
    requires e.Lawful() && Specialised(code, exec) && 0 <= m.pc < |code| && exec[m.pc].MulAdd?
    ensures 1 <= n <= 2 && (n == 2 ==> !e.hooks) && e.CodeRun(code, m, n) == e.ExecStep(exec, m)
  {
    var i := exec[m.pc];
    assert i == ExecAt(code, m.pc);
    var x, y := Get(m.frame, i.b), e.Const(i.k);
    var first := e.ArithInto(m, Mul, i.a, x, y);
    assert e.CodeStep(code, m) == Some(first);
    OneStep(e, code, m);
    n := 1;
    if x.Flt? && y.Flt? && !e.hooks {
      var j := SpecialOf(code[m.pc + 1]);
      assert exec[m.pc + 1] == j;
      if Get(first.frame, j.c).Flt? {
        n := 2;
        OneStep(e, code, first);
        assert e.CodeRun(code, m, 2) == e.CodeRun(code, first, 1);
      }
    }
  }

  /** Any run of specialised code, from any pc, reaches what some run of the
      original reaches: of at least as many steps and at most twice. */
  lemma {:induction false} RunSimulates(e: Setting, code: seq<Instr>, exec: seq<Exec>, m: Machine, n: nat) returns (k: nat)
    requires e.Lawful() && Specialised(code, exec)
    ensures n <= k <= 2 * n && e.CodeRun(code, m, k) == e.ExecRun(exec, m, n)
    decreases n
  {
    if n == 0 {
      return 0;
    }
    var first := StepSimulates(e, code, exec, m);
    match e.ExecStep(exec, m)
    case None =>
      RunsOut(e, code, m, first, n - 1);
      return first + (n - 1);
    case Some(next) =>
      var rest := RunSimulates(e, code, exec, next, n - 1);
      RunsOn(e, code, m, first, next, rest);
      return first + rest;
  }

  lemma {:induction false} RunsOn(e: Setting, code: seq<Instr>, m: Machine, a: nat, next: Machine, b: nat)
    requires e.CodeRun(code, m, a) == Some(next)
    ensures e.CodeRun(code, m, a + b) == e.CodeRun(code, next, b)
    decreases a
  {
    if a > 0 {
      RunsOn(e, code, e.CodeStep(code, m).value, a - 1, next, b);
    }
  }

  lemma {:induction false} RunsOut(e: Setting, code: seq<Instr>, m: Machine, a: nat, b: nat)
    requires e.CodeRun(code, m, a) == None
    ensures e.CodeRun(code, m, a + b) == None
    decreases a
  {
    if a > 0 && e.CodeStep(code, m).Some? {
      RunsOut(e, code, e.CodeStep(code, m).value, a - 1, b);
    }
  }
}
