/** What a kernel does at run time, on machine registers, and why it leaves
    what the interpreter would. */
module KernelCode {
  import opened Wrappers
  import opened Int64
  import opened Division
  import opened Bytecode
  import opened KernelFlow
  import opened KernelTypes
  import opened KernelScan
  import opened KernelPlan

  // ---------- Machine registers ----------

  /** The general-purpose and floating-point registers kernels use. */
  datatype Machine = Machine(ints: map<nat, int64>, floats: map<nat, Float>)

  /** A kernel at work: the function it runs in, its plan, the frame it
      started from, and the arguments an intrinsic's code leaves to Go. */
  datatype Kernel = Kernel(env: Env, plan: Plan, frame: Frame, leaves: (nat, Float) -> bool)
  {
    predicate Valid() {
      && plan.b.Valid() && plan.b.p == env.p && plan.b.p.code[plan.b.latch].ForLoop?
      && |plan.flow.at| == plan.b.latch - plan.b.start + 1
    }

    function At(ip: int): Types
      requires Valid() && plan.b.start <= ip <= plan.b.latch
    {
      plan.flow.at[ip - plan.b.start]
    }

    /** Register r's machine register as an integer and as a float. */
    function IntReg(m: Machine, r: nat): int64 {
      var s := KSlot(r, IntKind);
      if s in plan.slots && plan.slots[s] in m.ints then m.ints[plan.slots[s]] else 0
    }

    function FloatReg(m: Machine, r: nat): Float {
      var s := KSlot(r, FloatKind);
      if s in plan.slots && plan.slots[s] in m.floats then m.floats[plan.slots[s]] else Float(0)
    }

    function SetInt(m: Machine, r: nat, i: int64): Machine {
      var s := KSlot(r, IntKind);
      if s in plan.slots then m.(ints := m.ints[plan.slots[s] := i]) else m
    }

    function SetFloat(m: Machine, r: nat, f: Float): Machine {
      var s := KSlot(r, FloatKind);
      if s in plan.slots then m.(floats := m.floats[plan.slots[s] := f]) else m
    }

    /** What the code reads an RK field as: an integer, or a float. */
    function IntOperand(m: Machine, field: RK): int64 {
      match field
      case R(r) => IntReg(m, r)
      case K(k) => if Constant(env.p, k).Int? then Constant(env.p, k).i else 0
    }

    function FloatOperand(m: Machine, state: Types, field: RK): Float {
      match field
      case R(r) => if TypeOf(state, r) == IntKind then env.ops.ofInt(IntReg(m, r)) else FloatReg(m, r)
      case K(k) => if Constant(env.p, k).Number?() then ToFloat(env.ops, Constant(env.p, k)) else env.ops.zero
    }

    // ---------- The emitted code ----------

    function DivideCode(modulo: bool, d: int64, n: int64): int64
      requires d != 0
    {
      Wrap(if Plannable(d) then DivideByConstant(modulo, PlanOf(d), n) else DivideInstruction(modulo, d, n))
    }

    /** The memory of the buffer in register t, which the loop never writes. */
    function BufferOf(heap: Heap, t: nat): Option<Memory> {
      var v := Get(frame, t);
      if v.Buffer? && v.id in heap then Some(heap[v.id]) else None
    }

    /** The code for the body instruction at ip. */
    function BodyStep(ip: int, m: Machine, heap: Heap): (out: CodeStep)
      requires Valid() && plan.b.start <= ip < plan.b.latch
      ensures out.Goto? ==> out.pc > ip
    {
      var state, isInt, next := At(ip), ResultAt(plan.flow.results, ip) == IntKind, ip + 1;
      match env.p.code[ip]
      case Move(a, b) =>
        Goto(next, if isInt then SetInt(m, a, IntReg(m, b)) else SetFloat(m, a, FloatReg(m, b)), heap)
      case LoadConstant(a, bx) =>
        Goto(next, if isInt then SetInt(m, a, IntOperand(m, K(bx))) else SetFloat(m, a, FloatOperand(m, state, K(bx))), heap)
      case Arith(op, a, rb, rc) =>
        if isInt && !op.Div? then
          Goto(next, SetInt(m, a, IntArith(op, IntOperand(m, rb), IntOperand(m, rc))), heap)
        else
          Goto(next, SetFloat(m, a, FloatArith(env.ops, op, FloatOperand(m, state, rb), FloatOperand(m, state, rc))), heap)
      case DivMod(modulo, a, rb, rc) =>
        var d := IntOperand(m, rc);
        if d == 0 then Leave else
        Goto(next, SetInt(m, a, DivideCode(modulo, d, IntOperand(m, rb))), heap)
      case UnaryMinus(a, b) =>
        Goto(next, if isInt then SetInt(m, a, Wrap(0 - IntReg(m, b))) else SetFloat(m, a, env.ops.neg(FloatReg(m, b))), heap)
      case Compare(cmp, want, rb, rc) =>
        var holds :=
          if FieldKind(env.p, state, rb) == IntKind && FieldKind(env.p, state, rc) == IntKind
          then IntCompare(cmp, IntOperand(m, rb), IntOperand(m, rc))
          else FloatCompare(env.ops, cmp, FloatOperand(m, state, rb), FloatOperand(m, state, rc));
        if holds != want then Goto(ip + 2, m, heap) else JumpCode(ip, m, heap)
      case Jump(_, _) => JumpCode(ip, m, heap)
      case GetUpValue(_, _) => Goto(next, m, heap)
      case Call(a, _, _) =>
        var x := if TypeOf(state, a + 1) == IntKind then env.ops.ofInt(IntReg(m, a + 1)) else FloatReg(m, a + 1);
        if ip !in plan.found.calls || leaves(plan.found.calls[ip].fn, x) then Leave
        else Goto(next, SetFloat(m, a, env.ops.unary(plan.found.calls[ip].fn, x)), heap)
      case GetTable(a, t, rc) =>
        var key := IntOperand(m, rc);
        (match BufferOf(heap, t)
         case Some(Floats(_, fs)) => if 0 <= key < |fs| then Goto(next, SetFloat(m, a, fs[key]), heap) else Leave
         case _ => Leave)
      case SetTable(t, rb, rc) =>
        var key := IntOperand(m, rb);
        (match BufferOf(heap, t)
         case None => Leave
         case Some(mem) =>
           if !(0 <= key < Length(mem)) then Leave
           else if mem.Floats? then
             Goto(next, m, heap[Get(frame, t).id := StoreFloat(env.ops, mem, key, FloatOperand(m, state, rc))])
           else if FieldKind(env.p, state, rc) == IntKind then
             Goto(next, m, heap[Get(frame, t).id := StoreInt(mem, key, IntOperand(m, rc))])
           else Leave) // Go checks that the float has an integer value
      case _ => Leave
    }

    function JumpCode(ip: int, m: Machine, heap: Heap): (out: CodeStep)
      requires Valid() && plan.b.start <= ip < plan.b.latch
      ensures out.Goto? ==> out.pc > ip
    {
      match plan.b.KernelJump(ip)
      case Some(t) => Goto(t, m, heap)
      case None => Leave
    }

    /** The code from ip to the FORLOOP, or to a side exit. */
    function RunBody(ip: int, m: Machine, heap: Heap): BodyEnd
      requires Valid() && plan.b.start <= ip
      decreases plan.b.latch - ip
    {
      if ip >= plan.b.latch then AtLatch(m, heap)
      else match BodyStep(ip, m, heap)
        case Goto(t, m', heap') => RunBody(t, m', heap')
        case Leave => SideAt(ip, m, heap)
    }

    /** How many instructions that runs. */
    function BodySteps(ip: int, m: Machine, heap: Heap): nat
      requires Valid() && plan.b.start <= ip
      decreases plan.b.latch - ip
    {
      if ip >= plan.b.latch then 0
      else match BodyStep(ip, m, heap)
        case Goto(t, m', heap') => 1 + BodySteps(t, m', heap')
        case Leave => 0
    }

    /** The pc, registers and buffers after n instructions of the body's code, if
        it gets so far without leaving. */
    function AfterCode(ip: int, m: Machine, heap: Heap, n: nat): Option<(int, Machine, Heap)>
      requires Valid() && plan.b.start <= ip
      decreases n
    {
      if n == 0 then Some((ip, m, heap))
      else if ip >= plan.b.latch then None
      else match BodyStep(ip, m, heap)
        case Goto(t, m', heap') => AfterCode(t, m', heap', n - 1)
        case Leave => None
    }

    /** FORLOOP on registers: None where the loop ends. */
    function LoopStep(m: Machine): Option<Machine>
      requires Valid()
    {
      var base := plan.Base();
      if plan.intLoop then
        var count := IntReg(m, base + 1);
        if count == 0 then None else
        var index := Wrap(IntReg(m, base) + IntReg(m, base + 2));
        Some(SetInt(SetInt(SetInt(m, base + 1, Wrap(count - 1)), base, index), base + 3, index))
      else
        var ops := env.ops;
        var limit, step := FloatReg(m, base + 1), FloatReg(m, base + 2);
        var index := ops.add(FloatReg(m, base), step);
        if (if ops.lt(ops.zero, step) then ops.le(index, limit) else ops.le(step, ops.zero) && ops.le(limit, index))
        then Some(SetFloat(SetFloat(m, base, index), base + 3, index)) else None
    }

    /** The frame with each written register that is typed taken from its machine
        register. */
    function Flush(types: Types, m: Machine): Frame {
      frame + map r | r in plan.found.written && TypeOf(types, r) != AnyKind ::
        if types[r] == IntKind then Int(IntReg(m, r)) else Flt(FloatReg(m, r))
    }

    /** Leaving in the middle: an intrinsic's CALL finds the function in its
        register again. */
    function SideFlush(ip: int, m: Machine): Frame
      requires Valid() && plan.b.start <= ip < plan.b.latch
    {
      var back := Flush(At(ip), m);
      match env.p.code[ip]
      case Call(a, _, _) => if ip in plan.found.calls then back[a := UpValue(env, plan.found.calls[ip].n)] else back
      case _ => back
    }

    /** Iterations until the loop ends, a side exit, or the budget runs out. */
    function Iterate(m: Machine, heap: Heap, budget: nat): Exit
      requires Valid()
      decreases budget
    {
      match RunBody(plan.b.start, m, heap)
      case SideAt(ip, m', heap') =>
        if plan.b.start <= ip < plan.b.latch then SideExit(ip, SideFlush(ip, m'), heap') else Stuck
      case AtLatch(m', heap') =>
        var end := At(plan.b.latch);
        match LoopStep(m')
        case None => LoopEnd(Flush(end, m'), heap')
        case Some(m'') =>
          if budget <= 1 then BudgetExit(Flush(end, m''), heap')
          else Iterate(m'', heap', budget - 1)
    }

    /** How many instructions those run, FORLOOPs included. */
    function IterateSteps(m: Machine, heap: Heap, budget: nat): nat
      requires Valid()
      decreases budget
    {
      var n := BodySteps(plan.b.start, m, heap);
      match RunBody(plan.b.start, m, heap)
      case SideAt(_, _, _) => n
      case AtLatch(m', heap') =>
        match LoopStep(m')
        case None => n + 1
        case Some(m'') => if budget <= 1 then n + 1 else n + 1 + IterateSteps(m'', heap', budget - 1)
    }

    /** The live-in registers, loaded. */
    function Load(n: nat): Machine
      requires n <= |plan.found.liveIn|
    {
      if n == 0 then Machine(map[], map[])
      else
        var m, r := Load(n - 1), plan.found.liveIn[n - 1];
        match Get(frame, r)
        case Int(i) => SetInt(m, r, i)
        case Flt(f) => SetFloat(m, r, f)
        case _ => m
    }

    /** The kernel, entered at the FORLOOP. */
    function Run(heap: Heap, budget: nat): Exit
      requires Valid()
    {
      match LoopStep(Load(|plan.found.liveIn|))
      case None => LoopEnd(frame, heap)
      case Some(m) => Iterate(m, heap, budget)
    }

    /** How many instructions the kernel runs. */
    function Steps(heap: Heap, budget: nat): nat
      requires Valid()
    {
      match LoopStep(Load(|plan.found.liveIn|))
      case None => 1
      case Some(m) => 1 + IterateSteps(m, heap, budget)
    }
  }

  datatype CodeStep = Goto(pc: int, m: Machine, heap: Heap) | Leave
  datatype BodyEnd = AtLatch(m: Machine, heap: Heap) | SideAt(ip: int, m: Machine, heap: Heap)

  /** How a kernel ends: after the loop, at the next iteration when its budget
      has run out, or at an instruction of the body it leaves to the ordinary
      code. */
  datatype Exit = LoopEnd(frame: Frame, heap: Heap) | BudgetExit(frame: Frame, heap: Heap)
                | SideExit(ip: int, frame: Frame, heap: Heap) | Stuck

  /** Every jump of the body goes to a pc that the emitter bound a label for;
      otherwise the assembler reports an error and no code runs. */
  ghost predicate Assembles(b: Loop)
    requires b.Valid()
  {
    forall j :: b.start <= j < b.latch && b.Visited(j) && b.KernelJump(j).Some? ==> b.Visited(b.KernelJump(j).value)
  }

  /** What is checked before a kernel runs: live-in registers fit their types,
      noted upvalues and buffer registers hold what the plan needs. */
  predicate Enters(k: Kernel, heap: Heap) {
    && (forall r :: r in k.plan.found.liveIn ==> r in k.plan.types && Fits(k.plan.types[r], Get(k.frame, r)))
    && (forall c :: c in k.plan.found.calls ==> UpValue(k.env, k.plan.found.calls[c].n) == Function(k.plan.found.calls[c].fn))
    && (forall t :: t in k.plan.found.buffers ==>
          k.BufferOf(heap, t).Some? && (k.plan.found.buffers[t] ==> k.BufferOf(heap, t).value.Floats?))
  }

  predicate Fits(t: Kind, v: Value) {
    (t == IntKind && v.Int?) || (t == FloatKind && v.Flt?)
  }
}
