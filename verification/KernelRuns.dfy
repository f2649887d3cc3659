/** Which instructions a kernel takes, told by the interpreter: those that run on every
    frame with registers of the types known. */
module KernelRuns {
  import opened Wrappers
  import opened Int64
  import opened IntegerDivision
  import opened Bytecode
  import opened KernelFlow
  import opened KernelTypes
  import opened KernelScan
  import opened KernelCode

  /** A frame has numbers of the types known; anything may be in other registers. */
  ghost predicate FitsAll(state: Types, frame: Frame) {
    forall r :: r in state && state[r] != AnyKind ==> Fits(state[r], Get(frame, r))
  }

  /** The least frame that does, with i for every integer. */
  function Sample(state: Types, i: int64): Frame {
    map r | r in state && state[r] != AnyKind :: if state[r] == IntKind then Int(i) else Flt(Float(0))
  }

  lemma SampleFits(state: Types, i: int64)
    ensures FitsAll(state, Sample(state, i))
  {
  }

  /** The interpreter's step from s writes a number of kind t to the instruction's
      register and goes to the next instruction. */
  ghost predicate StepsTo(env: Env, s: State, t: Kind) {
    && 0 <= s.pc < |env.p.code| && Writes(env.p.code[s.pc]).Some?
    && (match Step(env, s)
        case None => false
        case Some(s') =>
          s'.pc == s.pc + 1 && s'.heap == s.heap && Fits(t, Get(s'.frame, Writes(env.p.code[s.pc]).value)))
  }

  /** On every frame of those types it does. */
  ghost predicate AlwaysSteps(env: Env, ip: int, state: Types, heap: Heap, t: Kind) {
    forall frame: Frame :: FitsAll(state, frame) ==> StepsTo(env, State(ip, frame, heap), t)
  }

  /** A move, a constant, arithmetic or a negation can run as writing a t just where
      the interpreter always writes a t. */
  lemma ComputeRunsExact(env: Env, ip: int, state: Types, heap: Heap, t: Kind)
    requires 0 <= ip < |env.p.code|
    requires var i := env.p.code[ip]; i.Move? || i.LoadConstant? || i.Arith? || i.UnaryMinus?
    ensures
      var i := env.p.code[ip];
      Runs(env.p, i, state, t) && Result(env.p, i, state) == (t, true) <==> AlwaysSteps(env, ip, state, heap, t)
  {
    hide AlwaysSteps, NumberArith, Wrap;
    var i := env.p.code[ip];
    match i {
      case Move(_, _) => MoveRuns(env, ip, state, heap, t);
      case LoadConstant(_, _) => LoadRuns(env, ip, state, heap, t);
      case Arith(_, _, _, _) => ArithRuns(env, ip, state, heap, t);
      case UnaryMinus(_, _) => MinusRuns(env, ip, state, heap, t);
    }
  }

  lemma MoveRuns(env: Env, ip: int, state: Types, heap: Heap, t: Kind)
    requires 0 <= ip < |env.p.code| && env.p.code[ip].Move?
    ensures
      var i := env.p.code[ip];
      Runs(env.p, i, state, t) && Result(env.p, i, state) == (t, true) <==> AlwaysSteps(env, ip, state, heap, t)
  {
    var frame := Sample(state, 0);
    SampleFits(state, 0);
    assert AlwaysSteps(env, ip, state, heap, t) ==> StepsTo(env, State(ip, frame, heap), t);
  }

  lemma LoadRuns(env: Env, ip: int, state: Types, heap: Heap, t: Kind)
    requires 0 <= ip < |env.p.code| && env.p.code[ip].LoadConstant?
    ensures
      var i := env.p.code[ip];
      Runs(env.p, i, state, t) && Result(env.p, i, state) == (t, true) <==> AlwaysSteps(env, ip, state, heap, t)
  {
    var frame := Sample(state, 0);
    SampleFits(state, 0);
    assert AlwaysSteps(env, ip, state, heap, t) ==> StepsTo(env, State(ip, frame, heap), t);
  }

  lemma MinusRuns(env: Env, ip: int, state: Types, heap: Heap, t: Kind)
    requires 0 <= ip < |env.p.code| && env.p.code[ip].UnaryMinus?
    ensures
      var i := env.p.code[ip];
      Runs(env.p, i, state, t) && Result(env.p, i, state) == (t, true) <==> AlwaysSteps(env, ip, state, heap, t)
  {
    hide Wrap;
    var frame := Sample(state, 0);
    SampleFits(state, 0);
    assert AlwaysSteps(env, ip, state, heap, t) ==> StepsTo(env, State(ip, frame, heap), t);
  }

  /** What a field holds on a frame of those types, and on the least one. */
  lemma OperandFits(env: Env, state: Types, frame: Frame, field: RK)
    requires FitsAll(state, frame)
    ensures FieldKind(env.p, state, field) == IntKind ==> Operand(env, frame, field).Int?
    ensures FieldKind(env.p, state, field) == FloatKind ==> Operand(env, frame, field).Flt?
    ensures field.K? && FieldKind(env.p, state, field) == AnyKind ==> !Operand(env, frame, field).Number?()
  {
  }

  lemma SampleOperand(env: Env, state: Types, i: int64, field: RK)
    ensures Operand(env, Sample(state, i), field).Number?() <==> FieldKind(env.p, state, field) != AnyKind
    ensures field.R? && FieldKind(env.p, state, field) == IntKind ==> Operand(env, Sample(state, i), field) == Int(i)
    ensures FieldKind(env.p, state, field) == IntKind ==> Operand(env, Sample(state, i), field).Int?
    ensures FieldKind(env.p, state, field) == FloatKind ==> Operand(env, Sample(state, i), field).Flt?
  {
  }

  lemma ArithRuns(env: Env, ip: int, state: Types, heap: Heap, t: Kind)
    requires 0 <= ip < |env.p.code| && env.p.code[ip].Arith?
    ensures
      var i := env.p.code[ip];
      Runs(env.p, i, state, t) && Result(env.p, i, state) == (t, true) <==> AlwaysSteps(env, ip, state, heap, t)
  {
    hide IntArith, FloatArith, Operand, FieldKind, FitsAll;
    var i := env.p.code[ip];
    var sample := Sample(state, 0);
    SampleFits(state, 0);
    SampleOperand(env, state, 0, i.rb);
    SampleOperand(env, state, 0, i.rc);
    assert AlwaysSteps(env, ip, state, heap, t) ==> StepsTo(env, State(ip, sample, heap), t);
    forall frame: Frame | FitsAll(state, frame) && Runs(env.p, i, state, t) && Result(env.p, i, state) == (t, true)
      ensures StepsTo(env, State(ip, frame, heap), t)
    {
      OperandFits(env, state, frame, i.rb);
      OperandFits(env, state, frame, i.rc);
    }
  }

  /** // and % by a nonzero constant integer run on a register just where the
      interpreter always writes an integer. */
  lemma DivModRunsExact(env: Env, ip: int, state: Types, heap: Heap)
    requires 0 <= ip < |env.p.code| && env.p.code[ip].DivMod?
    requires var i := env.p.code[ip];
      i.rb.R? && i.rc.K? && Constant(env.p, i.rc.k).Int? && Constant(env.p, i.rc.k).i != 0
    ensures
      var i := env.p.code[ip];
      Runs(env.p, i, state, IntKind) && Result(env.p, i, state) == (IntKind, true) <==>
      AlwaysSteps(env, ip, state, heap, IntKind)
  {
    hide IntMod, IntFloorDiv, FitsAll;
    var i := env.p.code[ip];
    var sample := Sample(state, 0);
    SampleFits(state, 0);
    SampleOperand(env, state, 0, i.rb);
    assert AlwaysSteps(env, ip, state, heap, IntKind) ==> StepsTo(env, State(ip, sample, heap), IntKind);
    forall frame: Frame | FitsAll(state, frame) && Runs(env.p, i, state, IntKind) && Result(env.p, i, state) == (IntKind, true)
      ensures StepsTo(env, State(ip, frame, heap), IntKind)
    {
      OperandFits(env, state, frame, i.rb);
    }
  }

  /** Two numbers that comparing as floats compares rightly. */
  predicate Comparable(x: Value, y: Value) {
    && x.Number?() && y.Number?()
    && (x.Int? && y.Flt? ==> -0x20_0000_0000_0000 <= x.i <= 0x20_0000_0000_0000)
    && (x.Flt? && y.Int? ==> -0x20_0000_0000_0000 <= y.i <= 0x20_0000_0000_0000)
  }

  /** A test can run just where its operands always are such numbers: an integer that
      meets a float is never past 2^53. */
  lemma CompareRunsExact(env: Env, i: Instr, state: Types, t: Kind)
    requires i.Compare?
    ensures
      Runs(env.p, i, state, t) <==>
      forall frame: Frame :: FitsAll(state, frame) ==> Comparable(Operand(env, frame, i.rb), Operand(env, frame, i.rc))
  {
    hide Operand, FieldKind, FitsAll;
    var big: int64 := 0x20_0000_0000_0001;
    var sample := Sample(state, big);
    SampleFits(state, big);
    SampleOperand(env, state, big, i.rb);
    SampleOperand(env, state, big, i.rc);
    ConstantOperand(env, state, sample, i.rb);
    ConstantOperand(env, state, sample, i.rc);
    forall frame: Frame | FitsAll(state, frame) && Runs(env.p, i, state, t)
      ensures Comparable(Operand(env, frame, i.rb), Operand(env, frame, i.rc))
    {
      OperandFits(env, state, frame, i.rb);
      OperandFits(env, state, frame, i.rc);
      ConstantOperand(env, state, frame, i.rb);
      ConstantOperand(env, state, frame, i.rc);
    }
    assert (forall frame: Frame :: FitsAll(state, frame) ==> Comparable(Operand(env, frame, i.rb), Operand(env, frame, i.rc))) ==>
        Comparable(Operand(env, sample, i.rb), Operand(env, sample, i.rc));
  }

  lemma ConstantOperand(env: Env, state: Types, frame: Frame, field: RK)
    ensures field.K? ==> Operand(env, frame, field) == Constant(env.p, field.k)
  {
  }

  /** A buffer can be read just where the key always is an integer, */
  lemma GetRunsExact(env: Env, i: Instr, state: Types)
    requires i.GetTable?
    ensures
      Runs(env.p, i, state, FloatKind) <==> forall frame: Frame :: FitsAll(state, frame) ==> Operand(env, frame, i.rc).Int?
  {
    var sample := Sample(state, 0);
    SampleFits(state, 0);
    SampleOperand(env, state, 0, i.rc);
    assert (forall frame: Frame :: FitsAll(state, frame) ==> Operand(env, frame, i.rc).Int?) ==> Operand(env, sample, i.rc).Int?;
  }

  /** written where the value is a number too, */
  lemma SetRunsExact(env: Env, i: Instr, state: Types, t: Kind)
    requires i.SetTable?
    ensures
      Runs(env.p, i, state, t) <==>
      forall frame: Frame :: FitsAll(state, frame) ==> Operand(env, frame, i.rb).Int? && Operand(env, frame, i.rc).Number?()
  {
    var sample := Sample(state, 0);
    SampleFits(state, 0);
    SampleOperand(env, state, 0, i.rb);
    SampleOperand(env, state, 0, i.rc);
    assert (forall frame: Frame :: FitsAll(state, frame) ==> Operand(env, frame, i.rb).Int? && Operand(env, frame, i.rc).Number?()) ==>
        Operand(env, sample, i.rb).Int? && Operand(env, sample, i.rc).Number?();
    forall frame: Frame | FitsAll(state, frame) && Runs(env.p, i, state, t)
      ensures Operand(env, frame, i.rb).Int? && Operand(env, frame, i.rc).Number?()
    {
      OperandFits(env, state, frame, i.rb);
      OperandFits(env, state, frame, i.rc);
    }
  }

  /** and an intrinsic called where its argument always is a number. */
  lemma CallRunsExact(env: Env, i: Instr, state: Types)
    requires i.Call?
    ensures
      Runs(env.p, i, state, FloatKind) <==> forall frame: Frame :: FitsAll(state, frame) ==> Get(frame, i.a + 1).Number?()
  {
    var sample := Sample(state, 0);
    SampleFits(state, 0);
    SampleOperand(env, state, 0, R(i.a + 1));
    assert (forall frame: Frame :: FitsAll(state, frame) ==> Get(frame, i.a + 1).Number?()) ==> Get(sample, i.a + 1).Number?();
    forall frame: Frame | FitsAll(state, frame) && Runs(env.p, i, state, FloatKind)
      ensures Get(frame, i.a + 1).Number?()
    {
      OperandFits(env, state, frame, R(i.a + 1));
    }
  }

  /** Jumps and GETUPVALs always can. */
  lemma OthersRun(p: Proto, i: Instr, state: Types, t: Kind)
    requires i.Jump? || i.GetUpValue?
    ensures Runs(p, i, state, t)
  {
  }

  // ---------- Which instructions the scan takes ----------

  /** The test or jump at ip, if it is one, goes to a later pc of the body or to its
      FORLOOP: a test by the JMP after it. */
  predicate GoesOn(b: Loop, ip: int)
    requires b.Valid() && b.start <= ip < b.latch
  {
    var i := b.p.code[ip];
    var j := if i.Compare? then ip + 1 else ip;
    i.Compare? || i.Jump? ==>
      j < |b.p.code| && b.p.code[j].Jump? && b.p.code[j].a == 0 && 0 <= b.p.code[j].sbx && j + 1 + b.p.code[j].sbx <= b.latch
  }

  /** A division's second operand is a nonzero constant of 32 bits. */
  predicate DividesByConstant(p: Proto, i: Instr) {
    i.DivMod? ==>
      && i.rc.K? && Constant(p, i.rc.k).Int? && Constant(p, i.rc.k).i != 0
      && -0x8000_0000 <= Constant(p, i.rc.k).i <= 0x7fff_ffff
  }

  /** What the interpreter can run on some frame, writing a number if anything, the scan
      takes, where all constants are within reach, jumps go on in the body, and
      divisions are by such constants. */
  lemma ScansIfStepped(b: Loop, env: Env, constOK: nat -> bool, intrinsic: nat -> Option<nat>, ip: int, s: State)
    requires b.Valid() && b.start <= ip < b.latch && env.p == b.p && s.pc == ip && forall k :: constOK(k)
    requires Step(env, s).Some? && GoesOn(b, ip) && DividesByConstant(b.p, b.p.code[ip])
    requires var i := b.p.code[ip]; Writes(i).Some? ==> Get(Step(env, s).value.frame, Writes(i).value).Number?()
    requires var i := b.p.code[ip]; !i.GetUpValue? && !i.Call? && !i.ForLoop?
    ensures Scans(b, constOK, intrinsic, ip)
  {
    hide Loop.CallFrom, NumberCompare, NumberArith, NumberDivMod, Wrap;
    if b.p.code[ip].GetTable? {
      ReadsNumber(env, s);
    }
  }

  lemma ReadsNumber(env: Env, s: State)
    requires 0 <= s.pc < |env.p.code| && env.p.code[s.pc].GetTable? && Step(env, s).Some?
    requires Get(Step(env, s).value.frame, env.p.code[s.pc].a).Number?()
    ensures Operand(env, s.frame, env.p.code[s.pc].rc).Number?()
  {
  }

  /** Arithmetic that neither reads nor writes register a. */
  predicate Passes(i: Instr, a: nat) {
    && (i.Move? || i.LoadConstant? || i.Arith? || i.DivMod? || i.UnaryMinus?)
    && !ReadsRegister(i, a) && Writes(i) != Some(a)
  }

  lemma PassesSpares(i: Instr, a: nat)
    ensures Passes(i, a) <==> Spares(i, a)
  {
  }

  /** No jump of the body goes to ip. */
  ghost predicate NotTarget(b: Loop, ip: int)
    requires b.Valid()
  {
    forall from :: b.start <= from < b.latch && (b.p.code[from].Jump? || b.p.code[from].Compare?) ==>
      JumpFrom(b.p, if b.p.code[from].Compare? then from + 1 else from) != Some(ip)
  }

  /** A GETUPVAL feeds the next CALL of its register with one argument, if only such
      arithmetic comes between and no jump goes there, */
  lemma {:induction false} CallFound(b: Loop, a: nat, j: int, c: int)
    requires b.Valid() && b.start <= j <= c < b.latch && b.p.code[c] == Call(a, 2, 2)
    requires forall i :: j <= i < c ==> Passes(b.p.code[i], a)
    requires forall i :: j <= i <= c ==> NotTarget(b, i)
    ensures b.CallFrom(a, j) == Some(c)
    decreases c - j
  {
    hide Spares, Passes;
    assert NotTarget(b, j);
    assert !b.LandsAt(j);
    if j < c {
      assert Passes(b.p.code[j], a);
      PassesSpares(b.p.code[j], a);
      PassesNoCall(b.p.code[j], a);
      CallFound(b, a, j + 1, c);
    }
  }

  lemma PassesNoCall(i: Instr, a: nat)
    requires Passes(i, a)
    ensures !i.Call?
  {
  }

  /** and the scan takes both if it is of an intrinsic. */
  lemma ScansIntrinsic(b: Loop, constOK: nat -> bool, intrinsic: nat -> Option<nat>, u: int, c: int)
    requires b.Valid() && b.start <= u < c < b.latch && b.Visited(u) && b.p.code[u].GetUpValue?
    requires intrinsic(b.p.code[u].n).Some? && b.p.code[c] == Call(b.p.code[u].a, 2, 2)
    requires forall i :: u < i < c ==> Passes(b.p.code[i], b.p.code[u].a)
    requires forall i :: u < i <= c ==> NotTarget(b, i)
    ensures Scans(b, constOK, intrinsic, u) && Scans(b, constOK, intrinsic, c)
  {
    hide Loop.Visited, Loop.CallFrom, Passes, NotTarget;
    CallFound(b, b.p.code[u].a, u + 1, c);
    assert FeedsCall(b, intrinsic, u, c);
  }

  /** A kernel follows just the tests and jumps that go on in the body, */
  lemma JumpMeans(b: Loop, ip: int)
    requires b.Valid() && b.start <= ip < b.latch
    ensures b.KernelJump(ip).Some? <==> (b.p.code[ip].Compare? || b.p.code[ip].Jump?) && GoesOn(b, ip)
    ensures b.KernelJump(ip).Some? ==>
      b.KernelJump(ip).value ==
        if b.p.code[ip].Compare? then ip + 2 + b.p.code[ip + 1].sbx else ip + 1 + b.p.code[ip].sbx
  {
  }

  /** and an instruction may be skipped just where one of those before it goes past it. */
  lemma SkippedMeans(b: Loop, ip: int)
    requires b.Valid() && b.start <= ip <= b.latch
    ensures b.Skipped(ip) <==>
      exists j :: b.start <= j < ip && Leaping(b, j) && ip < LeapsTo(b, j)
  {
    hide Loop.KernelJump;
    forall j | b.start <= j < ip
      ensures b.Leaps(j, ip) <==> Leaping(b, j) && ip < LeapsTo(b, j)
    {
      JumpMeans(b, j);
    }
  }

  predicate Leaping(b: Loop, j: int)
    requires b.Valid() && b.start <= j < b.latch
  {
    (b.p.code[j].Compare? || b.p.code[j].Jump?) && GoesOn(b, j)
  }

  function LeapsTo(b: Loop, j: int): int
    requires b.Valid() && b.start <= j < b.latch && Leaping(b, j)
  {
    if b.p.code[j].Compare? then j + 2 + b.p.code[j + 1].sbx else j + 1 + b.p.code[j].sbx
  }
}
