/** When a kernel leaves: only at an instruction that its code cannot do, told by the
    interpreter's state, and when its budget of iterations has run out. */
module KernelLeaves {
  import opened Wrappers
  import opened Int64
  import opened Bytecode
  import opened KernelFlow
  import opened KernelTypes
  import opened KernelScan
  import opened KernelPlan
  import opened KernelCode
  import opened KernelProof

  // ---------- What a kernel cannot do ----------

  /** The interpreter's buffer in register t, if it holds one. */
  function BufferIn(s: State, t: nat): Option<Memory> {
    var v := Get(s.frame, t);
    if v.Buffer? && v.id in s.heap then Some(s.heap[v.id]) else None
  }

  /** The interpreter is at an instruction that the ordinary code has to do: a read of
      a buffer that is nil or not of floats, a store that raises an error or converts
      a float to an integer, or a call of an intrinsic with an argument that its code
      leaves to Go. */
  ghost predicate Undone(k: Kernel, s: State) {
    && 0 <= s.pc < |k.env.p.code|
    && match k.env.p.code[s.pc]
       case GetTable(_, t, rc) =>
         (match BufferIn(s, t)
          case Some(Floats(single, fs)) => BufferAt(k.env.ops, Floats(single, fs), Operand(k.env, s.frame, rc)) == Nil
          case _ => true)
       case SetTable(t, rb, rc) =>
         (match BufferIn(s, t)
          case Some(mem) =>
            || BufferPut(k.env.ops, mem, Operand(k.env, s.frame, rb), Operand(k.env, s.frame, rc)).None?
            || (mem.Ints? && Operand(k.env, s.frame, rc).Flt?)
          case None => true)
       case Call(a, _, _) =>
         (Get(s.frame, a).Function? && Get(s.frame, a + 1).Number?() ==>
            k.leaves(Get(s.frame, a).fn, ToFloat(k.env.ops, Get(s.frame, a + 1))))
       case _ => false
  }

  /** An integer key reads the element there, and nil outside a buffer; a store there
      changes that element, and is an error outside. */
  lemma BufferMeans(ops: FloatOps, single: bool, fs: seq<Float>, i: int64, f: Float)
    ensures BufferAt(ops, Floats(single, fs), Int(i)) == if 0 <= i && i < |fs| then Flt(fs[i]) else Nil
    ensures BufferPut(ops, Floats(single, fs), Int(i), Flt(f)) ==
      if 0 <= i && i < |fs| then Some(Floats(single, fs[i := if single then ops.single(f) else f])) else None
  {
  }

  /** A store of an integer in a buffer of bytes or of int32s keeps its low bits. */
  lemma StoreWraps(ops: FloatOps, ints: seq<int64>, i: int64, n: int64)
    requires 0 <= i < |ints|
    ensures BufferPut(ops, Ints(1, ints), Int(i), Int(n)) == Some(Ints(1, ints[i := n % 256]))
    ensures exists low: int64 :: Low32(n, low) && BufferPut(ops, Ints(4, ints), Int(i), Int(n)) == Some(Ints(4, ints[i := low]))
  {
    hide Narrow;
    NarrowMeans(n);
    assert Low32(n, Narrow(4, n));
  }

  /** low is the int32 of n's low 32 bits. */
  ghost predicate Low32(n: int64, low: int64) {
    (low - n) % 0x1_0000_0000 == 0 && -0x8000_0000 <= low < 0x8000_0000
  }

  lemma NarrowMeans(n: int64)
    ensures Narrow(1, n) == n % 256 && Low32(n, Narrow(4, n))
  {
    var q := (n + 0x8000_0000) / 0x1_0000_0000;
    assert Narrow(4, n) - n == (0 - q) * 0x1_0000_0000;
    DivUnique((0 - q) * 0x1_0000_0000, 0x1_0000_0000, 0 - q, 0);
  }

  /** The kernel's code leaves an instruction exactly where the interpreter's state
      says that it must. */
  lemma LeavesExact(k: Kernel, intrinsic: nat -> Option<nat>, ip: int, m: Machine, s: State)
    requires InStep(k, intrinsic, ip, m, s) && BuffersStay(k, s.heap) && CallsHold(k)
    ensures k.BodyStep(ip, m, s.heap).Leave? <==> Undone(k, s)
  {
    hide Accepted, Sim, Loop.Visited, BuffersStay, CallsHold, Kernel.BodyStep, Undone;
    IndexOf(k, intrinsic, ip, m, s);
    ValidKernel(k, intrinsic);
    PcIs(k, ip, m, s);
    ScannedAt(k, intrinsic, ip);
    var i := k.env.p.code[ip];
    match i {
      case GetTable(_, _, _) => GetLeaves(k, intrinsic, ip, m, s);
      case SetTable(_, _, _) => SetLeaves(k, intrinsic, ip, m, s);
      case Call(_, _, _) => CallLeaves(k, intrinsic, ip, m, s);
      case _ => OthersStay(k, intrinsic, ip, m, s);
    }
  }

  lemma GetLeaves(k: Kernel, intrinsic: nat -> Option<nat>, ip: int, m: Machine, s: State)
    requires InStep(k, intrinsic, ip, m, s) && BuffersStay(k, s.heap) && k.env.p.code[ip].GetTable?
    ensures k.BodyStep(ip, m, s.heap).Leave? <==> Undone(k, s)
  {
    hide Loop.Visited, Scanned, Planned, Sim, Loop.CallFrom, Loop.KernelJump;
    ScannedAt(k, intrinsic, ip);
    RunsAt(k, intrinsic, ip);
    BufferKept(k, intrinsic, ip, m, s, k.env.p.code[ip].b);
    IntOperandHolds(k, ip, m, s, k.env.p.code[ip].rc);
    PcIs(k, ip, m, s);
  }

  lemma SetLeaves(k: Kernel, intrinsic: nat -> Option<nat>, ip: int, m: Machine, s: State)
    requires InStep(k, intrinsic, ip, m, s) && BuffersStay(k, s.heap) && k.env.p.code[ip].SetTable?
    ensures k.BodyStep(ip, m, s.heap).Leave? <==> Undone(k, s)
  {
    hide Loop.Visited, Scanned, Planned, Sim, Loop.CallFrom, Loop.KernelJump, Narrow;
    var t, rb, rc := k.env.p.code[ip].a, k.env.p.code[ip].rb, k.env.p.code[ip].rc;
    ScannedAt(k, intrinsic, ip);
    RunsAt(k, intrinsic, ip);
    BufferKept(k, intrinsic, ip, m, s, t);
    IntOperandHolds(k, ip, m, s, rb);
    FloatOperandHolds(k, ip, m, s, rc);
    if FieldKind(k.env.p, k.At(ip), rc) == IntKind { IntOperandHolds(k, ip, m, s, rc); }
    PcIs(k, ip, m, s);
  }

  lemma CallLeaves(k: Kernel, intrinsic: nat -> Option<nat>, ip: int, m: Machine, s: State)
    requires InStep(k, intrinsic, ip, m, s) && CallsHold(k) && k.env.p.code[ip].Call?
    ensures k.BodyStep(ip, m, s.heap).Leave? <==> Undone(k, s)
  {
    hide Loop.Visited, Scanned, Planned, Sim, Loop.CallFrom, Loop.KernelJump;
    RunsAt(k, intrinsic, ip);
    FunctionLoaded(k, intrinsic, ip, m, s);
    FloatOperandHolds(k, ip, m, s, R(k.env.p.code[ip].a + 1));
    PcIs(k, ip, m, s);
  }

  lemma OthersStay(k: Kernel, intrinsic: nat -> Option<nat>, ip: int, m: Machine, s: State)
    requires InStep(k, intrinsic, ip, m, s) && Accounted(k.plan.b, intrinsic, k.plan.found, ip)
    requires var i := k.env.p.code[ip]; !i.Call? && !i.GetTable? && !i.SetTable?
    ensures k.BodyStep(ip, m, s.heap).Goto? && !Undone(k, s)
  {
    hide Loop.Visited, Scanned, Planned, Sim, Loop.CallFrom, Accounted;
    if k.BodyStep(ip, m, s.heap).Leave? {
      LeavesFromTables(k, intrinsic, ip, m, s.heap);
    }
    PcIs(k, ip, m, s);
  }

  // ---------- Whole runs ----------

  /** In state s the interpreter is in the body and meets such an instruction. */
  ghost predicate Meets(k: Kernel, s: State) {
    k.plan.b.start <= s.pc < k.plan.b.latch && Undone(k, s)
  }

  /** After n steps it does. */
  ghost predicate MeetsAt(k: Kernel, s: State, n: nat) {
    Bytecode.Run(k.env, s, n).Some? && Meets(k, Bytecode.Run(k.env, s, n).value)
  }

  /** The body's code runs just as far as the interpreter meets nothing that it cannot
      do, and leaves where it does. */
  lemma {:induction false} BodyMeets(k: Kernel, intrinsic: nat -> Option<nat>, ip: int, m: Machine, s: State)
    requires Accepted(k, intrinsic) && k.plan.b.start <= ip <= k.plan.b.latch && k.plan.b.Visited(ip)
    requires Sim(k, ip, m, s) && BuffersStay(k, s.heap) && CallsHold(k)
    ensures forall n: nat :: n < k.BodySteps(ip, m, s.heap) ==> !MeetsAt(k, s, n)
    ensures k.RunBody(ip, m, s.heap).SideAt? <==> MeetsAt(k, s, k.BodySteps(ip, m, s.heap))
    decreases k.plan.b.latch - ip
  {
    hide Accepted, Sim, Loop.Visited, BuffersStay, CallsHold, Kernel.BodyStep, Step, Undone;
    ValidKernel(k, intrinsic);
    PcIs(k, ip, m, s);
    if ip < k.plan.b.latch {
      LeavesExact(k, intrinsic, ip, m, s);
      var out := k.BodyStep(ip, m, s.heap);
      if out.Goto? {
        var s1 := CodeStepSimulates(k, intrinsic, ip, m, s);
        BodyMeets(k, intrinsic, out.pc, out.m, s1);
        MeetsLater(k, s, s1, k.BodySteps(out.pc, out.m, out.heap));
      }
    }
  }

  /** What is met from the next state on is met a step later. */
  lemma MeetsLater(k: Kernel, s: State, s1: State, n: nat)
    requires Step(k.env, s) == Some(s1) && !Meets(k, s) && forall i: nat :: i < n ==> !MeetsAt(k, s1, i)
    ensures forall i: nat :: i < n + 1 ==> !MeetsAt(k, s, i)
    ensures MeetsAt(k, s, n + 1) == MeetsAt(k, s1, n)
  {
    hide Step, Meets;
    forall i: nat | i < n + 1
      ensures !MeetsAt(k, s, i)
    {
      if i > 0 {
        assert Bytecode.Run(k.env, s, i) == Bytecode.Run(k.env, s1, i - 1);
        assert !MeetsAt(k, s1, i - 1);
      }
    }
  }

  /** And so from a later state. */
  lemma MeetsAfter(k: Kernel, s: State, n: nat, s1: State, more: nat)
    requires Bytecode.Run(k.env, s, n) == Some(s1)
    requires forall i: nat :: i < n ==> !MeetsAt(k, s, i)
    requires forall i: nat :: i < more ==> !MeetsAt(k, s1, i)
    ensures forall i: nat :: i < n + more ==> !MeetsAt(k, s, i)
    ensures MeetsAt(k, s, n + more) == MeetsAt(k, s1, more)
  {
    hide Step, Meets;
    RunCompose(k.env, s, n, s1, more);
    forall i: nat | i < n + more
      ensures !MeetsAt(k, s, i)
    {
      if i >= n {
        RunCompose(k.env, s, n, s1, i - n);
        assert n + (i - n) == i && !MeetsAt(k, s1, i - n);
      }
    }
  }

  /** How often the interpreter is at the FORLOOP in n steps. */
  ghost function Rounds(k: Kernel, s: State, n: nat): nat
    decreases n
  {
    if n == 0 then 0
    else (if s.pc == k.plan.b.latch then 1 else 0)
         + match Step(k.env, s)
           case None => 0
           case Some(s1) => Rounds(k, s1, n - 1)
  }

  lemma {:induction false} RoundsAdd(k: Kernel, s: State, n: nat, s1: State, more: nat)
    requires Bytecode.Run(k.env, s, n) == Some(s1)
    ensures Rounds(k, s, n + more) == Rounds(k, s, n) + Rounds(k, s1, more)
    decreases n
  {
    hide Step;
    if n > 0 {
      RoundsAdd(k, Step(k.env, s).value, n - 1, s1, more);
    }
  }

  /** The body's instructions are before the FORLOOP. */
  lemma {:induction false} BodyRounds(k: Kernel, intrinsic: nat -> Option<nat>, ip: int, m: Machine, s: State)
    requires Accepted(k, intrinsic) && k.plan.b.start <= ip <= k.plan.b.latch && k.plan.b.Visited(ip)
    requires Sim(k, ip, m, s) && BuffersStay(k, s.heap) && CallsHold(k)
    ensures Rounds(k, s, k.BodySteps(ip, m, s.heap)) == 0
    decreases k.plan.b.latch - ip
  {
    hide Accepted, Sim, Loop.Visited, BuffersStay, CallsHold, Kernel.BodyStep, Step;
    ValidKernel(k, intrinsic);
    PcIs(k, ip, m, s);
    if ip < k.plan.b.latch {
      var out := k.BodyStep(ip, m, s.heap);
      if out.Goto? {
        var s1 := CodeStepSimulates(k, intrinsic, ip, m, s);
        BodyRounds(k, intrinsic, out.pc, out.m, s1);
      }
    }
  }

  /** How many iterations a budget is good for: at least one. */
  function Budget(budget: nat): nat {
    if budget <= 1 then 1 else budget
  }

  /** What an exit says of the run of so many instructions from s: a side exit is where
      the first instruction that the code cannot do is met, and a budget exit comes
      after just as many rounds as the budget is good for. */
  ghost predicate ExitMeans(k: Kernel, e: Exit, s: State, n: nat, rounds: nat) {
    && (forall i: nat :: i < n ==> !MeetsAt(k, s, i))
    && (e.SideExit? ==> MeetsAt(k, s, n) && Rounds(k, s, n) < rounds)
    && (e.BudgetExit? ==> Rounds(k, s, n) == rounds)
    && (e.LoopEnd? ==> Rounds(k, s, n) <= rounds && !MeetsAt(k, s, n))
  }

  lemma {:induction false} IterateMeans(k: Kernel, intrinsic: nat -> Option<nat>, m: Machine, s: State, budget: nat)
    requires Accepted(k, intrinsic) && Sim(k, k.plan.b.start, m, s) && BuffersStay(k, s.heap) && CallsHold(k)
    requires k.plan.b.latch + 1 + k.env.p.code[k.plan.b.latch].sbx == k.plan.b.start
    ensures ExitMeans(k, k.Iterate(m, s.heap, budget), s, k.IterateSteps(m, s.heap, budget), Budget(budget))
    decreases budget
  {
    hide Accepted, Loop.Visited, Sim, BuffersStay, CallsHold, Kernel.BodyStep, Kernel.RunBody, Kernel.BodySteps,
         Kernel.LoopStep, Kernel.Flush, Kernel.SideFlush, Step, Advanced, Loaded, Undone, Rounds;
    ValidKernel(k, intrinsic);
    var b := k.plan.b;
    b.StartVisited();
    var n, s1 := BodySimulates(k, intrinsic, b.start, m, s);
    BodyMeets(k, intrinsic, b.start, m, s);
    BodyRounds(k, intrinsic, b.start, m, s);
    if k.RunBody(b.start, m, s.heap).AtLatch? {
      var m1 := k.RunBody(b.start, m, s.heap).m;
      PcIs(k, b.latch, m1, s1);
      LoadedAtLatch(k, intrinsic, m1, s1);
      if k.LoopStep(m1).None? {
        LoopEnds(k, intrinsic, m1, s1);
        OneRound(k, s, n, s1, s1.(pc := b.latch + 1));
      } else {
        LoopGoesOn(k, intrinsic, m1, s1);
        var s2 := State(b.start, Advanced(k, m1, s1.frame), s1.heap);
        OneRound(k, s, n, s1, s2);
        if budget > 1 {
          StartSim(k, intrinsic, m1, s1);
          IterateMeans(k, intrinsic, k.LoopStep(m1).value, s2, budget - 1);
          var more := k.IterateSteps(k.LoopStep(m1).value, s2.heap, budget - 1);
          MeetsAfter(k, s, n + 1, s2, more);
          RoundsAdd(k, s, n + 1, s2, more);
        }
      }
    }
  }

  /** A FORLOOP step is one round, and meets nothing. */
  lemma OneRound(k: Kernel, s: State, n: nat, s1: State, s2: State)
    requires Bytecode.Run(k.env, s, n) == Some(s1) && Step(k.env, s1) == Some(s2) && s1.pc == k.plan.b.latch
    requires forall i: nat :: i < n ==> !MeetsAt(k, s, i)
    ensures Bytecode.Run(k.env, s, n + 1) == Some(s2) && Rounds(k, s, n + 1) == Rounds(k, s, n) + 1
    ensures forall i: nat :: i < n + 1 ==> !MeetsAt(k, s, i)
    ensures s2.pc == k.plan.b.latch + 1 ==> !MeetsAt(k, s, n + 1)
  {
    hide Step, Undone;
    OneMore(k.env, s, n, s1, s2);
    RoundsAdd(k, s, n, s1, 1);
    assert Rounds(k, s2, 0) == 0;
  }

  /** Why a kernel exits, for every frame that passes the entry check and any budget:
      as ExitMeans says of the interpreter's run from the FORLOOP. */
  lemma KernelExitMeans(k: Kernel, intrinsic: nat -> Option<nat>, heap: Heap, budget: nat)
    requires Accepted(k, intrinsic) && Enters(k, heap)
    requires k.plan.b.latch + 1 + k.env.p.code[k.plan.b.latch].sbx == k.plan.b.start
    ensures ExitMeans(k, k.Run(heap, budget), State(k.plan.b.latch, k.frame, heap), k.Steps(heap, budget), Budget(budget) + 1)
  {
    hide Accepted, Loop.Visited, Sim, Kernel.BodyStep, Kernel.RunBody, Kernel.LoopStep, Kernel.Load, Kernel.Iterate,
         Kernel.IterateSteps, Step, Loaded, Advanced, Undone, Rounds;
    ValidKernel(k, intrinsic);
    var m, s := k.Load(|k.plan.found.liveIn|), State(k.plan.b.latch, k.frame, heap);
    EntryLoaded(k, intrinsic, heap);
    NoneYet(k, s);
    if k.LoopStep(m).None? {
      LoopEnds(k, intrinsic, m, s);
      OneRound(k, s, 0, s, s.(pc := k.plan.b.latch + 1));
    } else {
      LoopGoesOn(k, intrinsic, m, s);
      StartSim(k, intrinsic, m, s);
      var s1 := State(k.plan.b.start, Advanced(k, m, k.frame), heap);
      OneRound(k, s, 0, s, s1);
      var more := k.IterateSteps(k.LoopStep(m).value, heap, budget);
      IterateMeans(k, intrinsic, k.LoopStep(m).value, s1, budget);
      MeetsAfter(k, s, 1, s1, more);
      RoundsAdd(k, s, 1, s1, more);
    }
  }

  lemma NoneYet(k: Kernel, s: State)
    ensures Rounds(k, s, 0) == 0 && Bytecode.Run(k.env, s, 0) == Some(s)
  {
  }

  /** A run of the interpreter that meets nothing that the code cannot do is never left
      at a side exit. */
  lemma NeverLeft(k: Kernel, intrinsic: nat -> Option<nat>, heap: Heap, budget: nat)
    requires Accepted(k, intrinsic) && Enters(k, heap)
    requires k.plan.b.latch + 1 + k.env.p.code[k.plan.b.latch].sbx == k.plan.b.start
    requires forall n: nat :: !MeetsAt(k, State(k.plan.b.latch, k.frame, heap), n)
    ensures k.Run(heap, budget).LoopEnd? || k.Run(heap, budget).BudgetExit?
  {
    hide Accepted, Enters, MeetsAt, Kernel.Run, Kernel.Steps;
    ValidKernel(k, intrinsic);
    KernelExitMeans(k, intrinsic, heap, budget);
    var n, s' := KernelSimulates(k, intrinsic, heap, budget);
  }

  /** A frame passes the entry check just where each live-in register holds a number of
      its type, each noted upvalue its function, and each buffer's register a buffer, of
      floats if it is read. */
  lemma EntersExact(k: Kernel, intrinsic: nat -> Option<nat>, heap: Heap)
    requires Accepted(k, intrinsic)
    ensures Enters(k, heap) <==>
      && (forall r :: r in k.plan.found.liveIn && r in k.plan.types ==>
            if k.plan.types[r] == IntKind then Get(k.frame, r).Int? else Get(k.frame, r).Flt?)
      && (forall c :: c in k.plan.found.calls ==>
            UpValue(k.env, k.plan.found.calls[c].n) == Function(k.plan.found.calls[c].fn))
      && (forall t :: t in k.plan.found.buffers ==>
            var v := Get(k.frame, t);
            v.Buffer? && v.id in heap && (k.plan.found.buffers[t] ==> heap[v.id].Floats?))
  {
    hide Scanned, Loop.Visited, Flow.From, AllRun, EndsAsItStarts, Slotted;
    forall r | r in k.plan.found.liveIn
      ensures r in k.plan.types && k.plan.types[r] != AnyKind
    {
      assert r !in Undecided(k.plan.types);
    }
    forall t | t in k.plan.found.buffers
      ensures k.BufferOf(heap, t).Some? <==> Get(k.frame, t).Buffer? && Get(k.frame, t).id in heap
    {
    }
  }
}
