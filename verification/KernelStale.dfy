/** Exactly when a kernel's whole iterations leave the interpreter's frame,
    whatever was in the registers that its entry check does not look at. */
module KernelStale {
  import opened Wrappers
  import opened Int64
  import opened Bytecode
  import opened KernelFlow
  import opened KernelTypes
  import opened KernelScan
  import opened KernelPlan
  import opened KernelCode
  import opened KernelProof

  // ---------- Frames that the entry check takes for the same ----------

  /** A frame has in the registers that the entry check looks at what k's has. */
  ghost predicate SameChecked(k: Kernel, frame: Frame) {
    forall r :: r in k.plan.found.liveIn || r in k.plan.found.buffers ==> Get(frame, r) == Get(k.frame, r)
  }

  lemma SameEnters(k: Kernel, intrinsic: nat -> Option<nat>, frame: Frame, heap: Heap)
    requires Accepted(k, intrinsic) && Enters(k, heap) && SameChecked(k, frame)
    ensures Accepted(k.(frame := frame), intrinsic) && Enters(k.(frame := frame), heap)
  {
    hide Scanned, Planned, Assembles;
    var k' := k.(frame := frame);
    forall t | t in k.plan.found.buffers
      ensures k'.BufferOf(heap, t) == k.BufferOf(heap, t)
    {
    }
  }

  lemma {:induction false} SameLoad(k: Kernel, frame: Frame, n: nat)
    requires SameChecked(k, frame) && n <= |k.plan.found.liveIn|
    ensures k.(frame := frame).Load(n) == k.Load(n)
    decreases n
  {
    if n > 0 {
      assert k.plan.found.liveIn[n - 1] in k.plan.found.liveIn;
      SameLoad(k, frame, n - 1);
    }
  }

  /** Of the frame the body's code reads the buffers' registers only. */
  lemma SameCode(k: Kernel, intrinsic: nat -> Option<nat>, frame: Frame, ip: int, m: Machine, heap: Heap)
    requires Accepted(k, intrinsic) && SameChecked(k, frame)
    requires k.plan.b.start <= ip < k.plan.b.latch && k.plan.b.Visited(ip)
    ensures k.(frame := frame).BodyStep(ip, m, heap) == k.BodyStep(ip, m, heap)
  {
    hide Accepted, Loop.Visited, Loop.CallFrom, Loop.KernelJump, Kernel.BodyStep;
    ValidKernel(k, intrinsic);
    ScannedAt(k, intrinsic, ip);
    SameStep(k, frame, ip, m, heap);
  }

  lemma SameReads(k: Kernel, frame: Frame)
    ensures forall m, r :: k.(frame := frame).IntReg(m, r) == k.IntReg(m, r)
    ensures forall m, r :: k.(frame := frame).FloatReg(m, r) == k.FloatReg(m, r)
    ensures forall m, f :: k.(frame := frame).IntOperand(m, f) == k.IntOperand(m, f)
    ensures forall m, t, f :: k.(frame := frame).FloatOperand(m, t, f) == k.FloatOperand(m, t, f)
  {
  }

  lemma SameWrites(k: Kernel, frame: Frame)
    ensures forall m, r, i :: k.(frame := frame).SetInt(m, r, i) == k.SetInt(m, r, i)
    ensures forall m, r, f :: k.(frame := frame).SetFloat(m, r, f) == k.SetFloat(m, r, f)
  {
  }

  lemma SameComputes(k: Kernel, frame: Frame, ip: int, m: Machine, heap: Heap)
    requires k.Valid() && k.plan.b.start <= ip < k.plan.b.latch
    ensures k.(frame := frame).JumpCode(ip, m, heap) == k.JumpCode(ip, m, heap)
    ensures forall modulo, d, n :: d != 0 ==> k.(frame := frame).DivideCode(modulo, d, n) == k.DivideCode(modulo, d, n)
  {
  }

  lemma SameStep(k: Kernel, frame: Frame, ip: int, m: Machine, heap: Heap)
    requires k.Valid() && k.plan.b.start <= ip < k.plan.b.latch
    requires k.env.p.code[ip].GetTable? ==> Get(frame, k.env.p.code[ip].b) == Get(k.frame, k.env.p.code[ip].b)
    requires k.env.p.code[ip].SetTable? ==> Get(frame, k.env.p.code[ip].a) == Get(k.frame, k.env.p.code[ip].a)
    ensures k.(frame := frame).BodyStep(ip, m, heap) == k.BodyStep(ip, m, heap)
  {
    hide Kernel.BodyStep;
    match k.env.p.code[ip] {
      case GetTable(_, _, _) => SameGet(k, frame, ip, m, heap);
      case SetTable(_, _, _) => SameSet(k, frame, ip, m, heap);
      case Arith(_, _, _, _) => SameNumbers(k, frame, ip, m, heap);
      case DivMod(_, _, _, _) => SameNumbers(k, frame, ip, m, heap);
      case Compare(_, _, _, _) => SameNumbers(k, frame, ip, m, heap);
      case _ => SameRest(k, frame, ip, m, heap);
    }
  }

  lemma SameGet(k: Kernel, frame: Frame, ip: int, m: Machine, heap: Heap)
    requires k.Valid() && k.plan.b.start <= ip < k.plan.b.latch && k.env.p.code[ip].GetTable?
    requires Get(frame, k.env.p.code[ip].b) == Get(k.frame, k.env.p.code[ip].b)
    ensures k.(frame := frame).BodyStep(ip, m, heap) == k.BodyStep(ip, m, heap)
  {
    hide Kernel.IntReg, Kernel.FloatReg, Kernel.SetInt, Kernel.SetFloat, Kernel.IntOperand, Kernel.FloatOperand,
         Kernel.DivideCode, Kernel.JumpCode, FloatArith, IntArith, FloatCompare, IntCompare, Wrap, Loop.KernelJump;
    SameReads(k, frame);
    SameWrites(k, frame);
  }

  lemma SameSet(k: Kernel, frame: Frame, ip: int, m: Machine, heap: Heap)
    requires k.Valid() && k.plan.b.start <= ip < k.plan.b.latch && k.env.p.code[ip].SetTable?
    requires Get(frame, k.env.p.code[ip].a) == Get(k.frame, k.env.p.code[ip].a)
    ensures k.(frame := frame).BodyStep(ip, m, heap) == k.BodyStep(ip, m, heap)
  {
    hide Kernel.IntReg, Kernel.FloatReg, Kernel.SetInt, Kernel.SetFloat, Kernel.IntOperand, Kernel.FloatOperand,
         Kernel.DivideCode, Kernel.JumpCode, FloatArith, IntArith, FloatCompare, IntCompare, Wrap, Loop.KernelJump;
    SameReads(k, frame);
    SameWrites(k, frame);
  }

  lemma SameNumbers(k: Kernel, frame: Frame, ip: int, m: Machine, heap: Heap)
    requires k.Valid() && k.plan.b.start <= ip < k.plan.b.latch
    requires k.env.p.code[ip].Arith? || k.env.p.code[ip].DivMod? || k.env.p.code[ip].Compare?
    ensures k.(frame := frame).BodyStep(ip, m, heap) == k.BodyStep(ip, m, heap)
  {
    hide Kernel.IntReg, Kernel.FloatReg, Kernel.SetInt, Kernel.SetFloat, Kernel.IntOperand, Kernel.FloatOperand,
         Kernel.DivideCode, Kernel.JumpCode, FloatArith, IntArith, FloatCompare, IntCompare, Wrap, Loop.KernelJump;
    SameReads(k, frame);
    SameWrites(k, frame);
    SameComputes(k, frame, ip, m, heap);
  }

  lemma SameRest(k: Kernel, frame: Frame, ip: int, m: Machine, heap: Heap)
    requires k.Valid() && k.plan.b.start <= ip < k.plan.b.latch && !k.env.p.code[ip].GetTable? && !k.env.p.code[ip].SetTable?
    requires !k.env.p.code[ip].Arith? && !k.env.p.code[ip].DivMod? && !k.env.p.code[ip].Compare?
    ensures k.(frame := frame).BodyStep(ip, m, heap) == k.BodyStep(ip, m, heap)
  {
    hide Kernel.IntReg, Kernel.FloatReg, Kernel.SetInt, Kernel.SetFloat, Kernel.IntOperand, Kernel.FloatOperand,
         Kernel.DivideCode, Kernel.JumpCode, FloatArith, IntArith, FloatCompare, IntCompare, Wrap, Loop.KernelJump;
    SameReads(k, frame);
    SameWrites(k, frame);
    SameComputes(k, frame, ip, m, heap);
  }

  /** Where the code goes, the instruction leads. */
  lemma CodeEdge(k: Kernel, intrinsic: nat -> Option<nat>, ip: int, m: Machine, heap: Heap)
    requires Accepted(k, intrinsic) && k.plan.b.start <= ip < k.plan.b.latch && k.plan.b.Visited(ip)
    requires k.BodyStep(ip, m, heap).Goto?
    ensures k.plan.b.Edge(ip, k.BodyStep(ip, m, heap).pc)
    ensures k.BodyStep(ip, m, heap).pc <= k.plan.b.latch && k.plan.b.Visited(k.BodyStep(ip, m, heap).pc)
  {
    hide Scanned, Planned, Loop.Visited, Loop.CallFrom;
    ScannedAt(k, intrinsic, ip);
    LandsVisited(k, intrinsic, ip, k.BodyStep(ip, m, heap).pc);
  }

  lemma {:induction false} SameBody(k: Kernel, intrinsic: nat -> Option<nat>, frame: Frame, ip: int, m: Machine, heap: Heap)
    requires Accepted(k, intrinsic) && SameChecked(k, frame)
    requires k.plan.b.start <= ip <= k.plan.b.latch && k.plan.b.Visited(ip)
    ensures k.(frame := frame).RunBody(ip, m, heap) == k.RunBody(ip, m, heap)
    decreases k.plan.b.latch - ip
  {
    hide Accepted, SameChecked, Loop.Visited, Kernel.BodyStep;
    ValidKernel(k, intrinsic);
    if ip < k.plan.b.latch {
      SameCode(k, intrinsic, frame, ip, m, heap);
      var out := k.BodyStep(ip, m, heap);
      if out.Goto? {
        CodeEdge(k, intrinsic, ip, m, heap);
        SameBody(k, intrinsic, frame, out.pc, out.m, out.heap);
      }
    }
  }

  /** The exit is of one kind. */
  predicate SameKind(e: Exit, e': Exit) {
    (e.LoopEnd? <==> e'.LoopEnd?) && (e.BudgetExit? <==> e'.BudgetExit?)
  }

  lemma {:induction false} SameIterate(k: Kernel, intrinsic: nat -> Option<nat>, frame: Frame, m: Machine, heap: Heap, budget: nat)
    requires Accepted(k, intrinsic) && SameChecked(k, frame)
    ensures k.Valid() && SameKind(k.Iterate(m, heap, budget), k.(frame := frame).Iterate(m, heap, budget))
    decreases budget
  {
    hide Accepted, SameChecked, Loop.Visited, Kernel.RunBody, Kernel.LoopStep, Kernel.Flush, Kernel.SideFlush;
    ValidKernel(k, intrinsic);
    var b := k.plan.b;
    b.StartVisited();
    SameBody(k, intrinsic, frame, b.start, m, heap);
    SameLoop(k, frame, m);
    if k.RunBody(b.start, m, heap).AtLatch? {
      var (m', heap') := (k.RunBody(b.start, m, heap).m, k.RunBody(b.start, m, heap).heap);
      SameLoop(k, frame, m');
      if k.LoopStep(m').Some? && budget > 1 {
        SameIterate(k, intrinsic, frame, k.LoopStep(m').value, heap', budget - 1);
      }
    }
  }

  lemma SameLoop(k: Kernel, frame: Frame, m: Machine)
    requires k.Valid()
    ensures k.(frame := frame).LoopStep(m) == k.LoopStep(m)
  {
  }

  // ---------- A register that is written holds something ----------

  /** Where r held something, or the instruction writes it, it does afterwards. */
  lemma StepHolds(k: Kernel, intrinsic: nat -> Option<nat>, ip: int, m: Machine, s: State, r: nat)
    requires InStep(k, intrinsic, ip, m, s) && BuffersStay(k, s.heap) && CallsHold(k)
    requires k.BodyStep(ip, m, s.heap).Goto? && Step(k.env, s).Some?
    requires Get(s.frame, r) != Nil || SureToWrite(k, ip, r)
    ensures Get(Step(k.env, s).value.frame, r) != Nil
  {
    hide Accepted, Sim, Loop.Visited, BuffersStay, Kernel.BodyStep, BothWrite;
    IndexOf(k, intrinsic, ip, m, s);
    ValidKernel(k, intrinsic);
    PcIs(k, ip, m, s);
    var i := k.env.p.code[ip];
    if Writes(i).Some? {
      var v := NumberWrites(k, intrinsic, ip, m, s);
      BothWriteNumber(k, ip, m, s, Writes(i).value, v);
    } else if !i.Compare? && !i.Jump? && !i.SetTable? {
      OnlyGetUpValue(k, intrinsic, ip);
      LoadsFunction(k, intrinsic, ip);
    }
  }

  lemma BothWriteNumber(k: Kernel, ip: int, m: Machine, s: State, a: nat, v: Value)
    requires k.Valid() && k.plan.b.start <= ip < k.plan.b.latch && BothWrite(k, ip, m, s, a, v)
    ensures v != Nil && Step(k.env, s) == Some(Next(s, a, v))
  {
  }

  lemma LoadsFunction(k: Kernel, intrinsic: nat -> Option<nat>, ip: int)
    requires Accepted(k, intrinsic) && k.plan.b.start <= ip < k.plan.b.latch && k.plan.b.Visited(ip)
    requires k.env.p.code[ip].GetUpValue? && CallsHold(k)
    ensures UpValue(k.env, k.env.p.code[ip].n).Function?
  {
    hide Scanned, Planned, Loop.Visited, Loop.CallFrom;
    ScannedAt(k, intrinsic, ip);
    var n, c := k.env.p.code[ip].n, k.plan.b.IntrinsicCall(ip).value;
    assert c in k.plan.found.calls && k.plan.found.calls[c] == KernelCall(n, intrinsic(n).value);
    assert UpValue(k.env, k.plan.found.calls[c].n) == Function(k.plan.found.calls[c].fn);
  }

  /** r is written at w, which nothing skips. */
  ghost predicate SureAt(b: Loop, w: int, r: nat)
    requires b.Valid()
  {
    b.start <= w < b.latch && b.Visited(w) && WritesUnskipped(b, r, w)
  }

  lemma NotPast(k: Kernel, ip: int, t: int, w: int, r: nat)
    requires k.Valid() && SureAt(k.plan.b, w, r) && k.plan.b.start <= ip <= w && k.plan.b.Edge(ip, t)
    ensures SureToWrite(k, ip, r) || t <= w
  {
    UnskippedWrites(k, r, w);
    if t > w && ip < w {
      NothingLeapsOver(k.plan.b, w, ip, t, r);
    }
  }

  /** So at the end of an iteration r holds something. */
  lemma {:induction false} BodyHolds(k: Kernel, intrinsic: nat -> Option<nat>, ip: int, m: Machine, s: State, w: int, r: nat)
    requires Accepted(k, intrinsic) && k.plan.b.start <= ip <= k.plan.b.latch && k.plan.b.Visited(ip)
    requires Sim(k, ip, m, s) && BuffersStay(k, s.heap) && CallsHold(k) && SureAt(k.plan.b, w, r)
    requires ip <= w || Get(s.frame, r) != Nil
    requires k.RunBody(ip, m, s.heap).AtLatch?
    ensures Run(k.env, s, k.BodySteps(ip, m, s.heap)).Some?
    ensures Get(Run(k.env, s, k.BodySteps(ip, m, s.heap)).value.frame, r) != Nil
    decreases k.plan.b.latch - ip
  {
    hide Accepted, Sim, Loop.Visited, BuffersStay, CallsHold, Kernel.BodyStep, Step, WritesUnskipped, SureToWrite;
    ValidKernel(k, intrinsic);
    if ip < k.plan.b.latch {
      var out := k.BodyStep(ip, m, s.heap);
      var s1 := CodeStepSimulates(k, intrinsic, ip, m, s);
      CodeEdge(k, intrinsic, ip, m, s.heap);
      if ip <= w {
        NotPast(k, ip, out.pc, w, r);
      }
      if Get(s.frame, r) != Nil || SureToWrite(k, ip, r) {
        StepHolds(k, intrinsic, ip, m, s, r);
      }
      BodyHolds(k, intrinsic, out.pc, out.m, s1, w, r);
    }
  }

  /** FORLOOP leaves the registers that are not its own. */
  lemma AdvancedLeaves(k: Kernel, m: Machine, frame: Frame, r: nat)
    requires k.Valid() && !LoopRegister(k.plan.Base(), r)
    ensures Get(Advanced(k, m, frame), r) == Get(frame, r)
  {
  }

  /** The exit comes at the end of an iteration. */
  predicate Whole(e: Exit) {
    e.LoopEnd? || e.BudgetExit?
  }

  lemma {:induction false} IterateHolds(k: Kernel, intrinsic: nat -> Option<nat>, m: Machine, s: State, budget: nat, w: int, r: nat)
    requires Accepted(k, intrinsic) && Sim(k, k.plan.b.start, m, s) && BuffersStay(k, s.heap) && CallsHold(k)
    requires k.plan.b.latch + 1 + k.env.p.code[k.plan.b.latch].sbx == k.plan.b.start
    requires SureAt(k.plan.b, w, r) && !LoopRegister(k.plan.Base(), r) && Whole(k.Iterate(m, s.heap, budget))
    ensures Run(k.env, s, k.IterateSteps(m, s.heap, budget)).Some?
    ensures Get(Run(k.env, s, k.IterateSteps(m, s.heap, budget)).value.frame, r) != Nil
    decreases budget
  {
    hide Accepted, Loop.Visited, Sim, BuffersStay, CallsHold, Kernel.BodyStep, Kernel.RunBody, Kernel.BodySteps,
         Kernel.LoopStep, Kernel.Flush, Kernel.SideFlush, Step, SureAt, LoopRegister, Advanced, Loaded;
    ValidKernel(k, intrinsic);
    var b := k.plan.b;
    b.StartVisited();
    var n, s1 := BodySimulates(k, intrinsic, b.start, m, s);
    var m1 := k.RunBody(b.start, m, s.heap).m;
    SureFrom(b, w, r);
    BodyHolds(k, intrinsic, b.start, m, s, w, r);
    PcIs(k, b.latch, m1, s1);
    LoadedAtLatch(k, intrinsic, m1, s1);
    if k.LoopStep(m1).None? {
      LoopEnds(k, intrinsic, m1, s1);
      OneMore(k.env, s, n, s1, s1.(pc := b.latch + 1));
    } else {
      LoopGoesOn(k, intrinsic, m1, s1);
      var s2 := State(b.start, Advanced(k, m1, s1.frame), s1.heap);
      OneMore(k.env, s, n, s1, s2);
      AdvancedLeaves(k, m1, s1.frame, r);
      if budget > 1 {
        StartSim(k, intrinsic, m1, s1);
        IterateHolds(k, intrinsic, k.LoopStep(m1).value, s2, budget - 1, w, r);
        RunCompose(k.env, s, n + 1, s2, k.IterateSteps(k.LoopStep(m1).value, s2.heap, budget - 1));
      }
    }
  }

  lemma SureFrom(b: Loop, w: int, r: nat)
    requires b.Valid() && SureAt(b, w, r)
    ensures b.start <= w
  {
  }

  // ---------- Whole frames ----------

  /** The interpreter, run for as many instructions as the kernel runs. */
  function Interpreted(k: Kernel, heap: Heap, budget: nat): Option<State>
    requires k.Valid()
  {
    Run(k.env, State(k.plan.b.latch, k.frame, heap), k.Steps(heap, budget))
  }

  /** It has then the kernel's frame. */
  ghost predicate SameAfter(k: Kernel, heap: Heap, budget: nat)
    requires k.Valid()
  {
    Interpreted(k, heap, budget).Some? && SameFrames(k, k.Run(heap, budget), Interpreted(k, heap, budget).value)
  }

  /** The kernel runs, and exits at the end of an iteration. */
  ghost predicate WholeRun(k: Kernel, heap: Heap, budget: nat)
    requires k.Valid()
  {
    k.LoopStep(k.Load(|k.plan.found.liveIn|)).Some? && Whole(k.Run(heap, budget))
  }

  /** So it does from any frame that the entry check takes for the same. */
  lemma SameRun(k: Kernel, intrinsic: nat -> Option<nat>, frame: Frame, heap: Heap, budget: nat)
    requires Accepted(k, intrinsic) && SameChecked(k, frame) && WholeRun(k, heap, budget)
    ensures k.(frame := frame).Valid() && WholeRun(k.(frame := frame), heap, budget)
  {
    hide Accepted, SameChecked, Kernel.Load, Kernel.LoopStep, Kernel.Iterate;
    ValidKernel(k, intrinsic);
    var m := k.Load(|k.plan.found.liveIn|);
    SameLoad(k, frame, |k.plan.found.liveIn|);
    SameLoop(k, frame, m);
    SameIterate(k, intrinsic, frame, k.LoopStep(m).value, heap, budget);
  }

  /** A written register that is untyped at the FORLOOP is not looked at, and each
      iteration writes it. */
  lemma UntypedUnchecked(k: Kernel, intrinsic: nat -> Option<nat>, r: nat) returns (w: int)
    requires Accepted(k, intrinsic) && r in k.plan.found.written && r !in k.At(k.plan.b.latch)
    ensures SureAt(k.plan.b, w, r) && !LoopRegister(k.plan.Base(), r)
    ensures r !in k.plan.found.liveIn && r !in k.plan.found.buffers
  {
    hide Loop.Visited, Loop.KernelJump, Loop.CallFrom, Accounted, CallsFed, Flow.From, AllRun, Slotted, WritesUnskipped;
    TypedAtEnd(k, intrinsic, r);
    w :| k.plan.b.start <= w < k.plan.b.latch && k.plan.b.Visited(w) && WritesUnskipped(k.plan.b, r, w);
  }

  lemma TypedAtEnd(k: Kernel, intrinsic: nat -> Option<nat>, r: nat)
    requires Accepted(k, intrinsic) && r in k.plan.found.written
    ensures r in k.plan.types ==> r in k.At(k.plan.b.latch)
  {
    hide Scanned, Flow.From, AllRun, Slotted;
    AcceptedFlow(k, intrinsic);
    assert k.plan.flow.At(k.plan.b, k.plan.b.latch) == k.At(k.plan.b.latch);
    assert r !in Undecided(k.plan.types);
  }

  /** Nothing but a typed register is written back. */
  lemma NotFlushed(k: Kernel, r: nat, m: Machine, heap: Heap, budget: nat)
    requires k.Valid() && r !in k.At(k.plan.b.latch) && Whole(k.Iterate(m, heap, budget))
    ensures Get(k.Iterate(m, heap, budget).frame, r) == Get(k.frame, r)
    decreases budget
  {
    hide Kernel.RunBody, Kernel.LoopStep, Kernel.SideFlush;
  }

  /** With nil in such a register, the interpreter ends with a value there and the
      kernel with nil. */
  lemma StaleFrom(k: Kernel, intrinsic: nat -> Option<nat>, heap: Heap, budget: nat, r: nat)
    requires Accepted(k, intrinsic) && Enters(k, heap) && WholeRun(k, heap, budget)
    requires k.plan.b.latch + 1 + k.env.p.code[k.plan.b.latch].sbx == k.plan.b.start
    requires r in k.plan.found.written && r !in k.At(k.plan.b.latch) && Get(k.frame, r) == Nil
    ensures !SameAfter(k, heap, budget)
  {
    hide Accepted, Loop.Visited, Sim, Kernel.Load, Kernel.LoopStep, Kernel.Iterate, Kernel.IterateSteps, Step, SureAt, LoopRegister,
         Advanced, Loaded;
    ValidKernel(k, intrinsic);
    var w := UntypedUnchecked(k, intrinsic, r);
    var m, s := k.Load(|k.plan.found.liveIn|), State(k.plan.b.latch, k.frame, heap);
    EntryLoaded(k, intrinsic, heap);
    LoopGoesOn(k, intrinsic, m, s);
    StartSim(k, intrinsic, m, s);
    var s1 := State(k.plan.b.start, Advanced(k, m, k.frame), heap);
    var m1 := k.LoopStep(m).value;
    IterateHolds(k, intrinsic, m1, s1, budget, w, r);
    OneMore(k.env, s, 0, s, s1);
    RunCompose(k.env, s, 1, s1, k.IterateSteps(m1, heap, budget));
    NotFlushed(k, r, m1, heap, budget);
  }

  /** A kernel that has run whole iterations leaves the interpreter's frame,
      whatever was in the registers not looked at, exactly where every register it
      writes is typed at the FORLOOP. */
  lemma SameAtEndsExact(k: Kernel, intrinsic: nat -> Option<nat>, heap: Heap, budget: nat)
    requires Accepted(k, intrinsic) && Enters(k, heap) && WholeRun(k, heap, budget)
    requires k.plan.b.latch + 1 + k.env.p.code[k.plan.b.latch].sbx == k.plan.b.start
    ensures AllTypedAtLatch(k) <==>
            forall frame :: SameChecked(k, frame) ==> SameAfter(k.(frame := frame), heap, budget)
  {
    hide Accepted, Enters, SameChecked, WholeRun, SameAfter, Kernel.Run;
    ValidKernel(k, intrinsic);
    if AllTypedAtLatch(k) {
      forall frame | SameChecked(k, frame)
        ensures SameAfter(k.(frame := frame), heap, budget)
      {
        SameEnters(k, intrinsic, frame, heap);
        SameRun(k, intrinsic, frame, heap, budget);
        TypedSame(k.(frame := frame), intrinsic, heap, budget);
      }
    } else {
      var r :| r in k.plan.found.written && r !in k.At(k.plan.b.latch);
      var frame := k.frame[r := Nil];
      Unchecked(k, intrinsic, r);
      SameEnters(k, intrinsic, frame, heap);
      SameRun(k, intrinsic, frame, heap, budget);
      StaleFrom(k.(frame := frame), intrinsic, heap, budget, r);
    }
  }

  lemma TypedSame(k: Kernel, intrinsic: nat -> Option<nat>, heap: Heap, budget: nat)
    requires Accepted(k, intrinsic) && Enters(k, heap) && AllTypedAtLatch(k) && WholeRun(k, heap, budget)
    requires k.plan.b.latch + 1 + k.env.p.code[k.plan.b.latch].sbx == k.plan.b.start
    ensures SameAfter(k, heap, budget)
  {
    hide Accepted, Enters, SameFrames, Kernel.Run, Kernel.Steps;
    ValidKernel(k, intrinsic);
    var n, s' := KernelSameAtEnds(k, intrinsic, heap, budget);
  }

  lemma Unchecked(k: Kernel, intrinsic: nat -> Option<nat>, r: nat)
    requires Accepted(k, intrinsic) && r in k.plan.found.written && r !in k.At(k.plan.b.latch)
    ensures SameChecked(k, k.frame[r := Nil])
  {
    hide Accepted, SureAt;
    var w := UntypedUnchecked(k, intrinsic, r);
  }
}
