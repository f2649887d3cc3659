/** Two loops that the planner accepts: one that writes its index in dead code, and
    leaves a stale register, and one that does not assemble. */
module KernelWitness {
  import opened Wrappers
  import opened Int64
  import opened Bytecode
  import opened KernelFlow
  import opened KernelTypes
  import opened KernelScan
  import opened KernelPlan
  import opened KernelCode
  import opened KernelProof

  /** Floats that are the integers. */
  function Integers(): FloatOps {
    FloatOps((x: Float, y: Float) => Float(x.bits + y.bits), (x: Float, y: Float) => Float(x.bits - y.bits),
             (x: Float, y: Float) => Float(x.bits * y.bits), (x: Float, y: Float) => x, (x: Float, y: Float) => x,
             (x: Float, y: Float) => x, (x: Float) => Float(-x.bits),
             (x: Float, y: Float) => x == y, (x: Float, y: Float) => x.bits < y.bits, (x: Float, y: Float) => x.bits <= y.bits,
             (x: Float) => x, (x: Float) => x, (x: Float) => x, Float(0), (i: int64) => Float(i),
             (x: Float) => if -0x8000_0000_0000_0000 <= x.bits < 0x8000_0000_0000_0000 then Some(x.bits as int64) else None,
             (n: nat, x: Float) => x)
  }

  /** A float loop on registers 0 to 3. The body sets register 4 and jumps over
      a store to the index; then it sets the index and the loop variable. */
  function Code(): seq<Instr> {
    [LoadConstant(4, 0), Jump(0, 1), LoadConstant(0, 0), LoadConstant(0, 0), LoadConstant(3, 0), ForLoop(0, -6)]
  }

  function Body(): Loop {
    Loop(Proto(Code(), [Flt(Float(1))]), 0, 5)
  }

  function Entry(): Types {
    map[0 := FloatKind, 1 := FloatKind, 2 := FloatKind, 3 := FloatKind]
  }

  function TheFlow(): Flow {
    Flow([Entry(), Entry()[4 := FloatKind], map[], map[0 := FloatKind], map[0 := FloatKind], map[0 := FloatKind, 3 := FloatKind]],
         map[0 := FloatKind, 2 := FloatKind, 3 := FloatKind, 4 := FloatKind])
  }

  function TheSlots(): map<KSlot, nat> {
    map[KSlot(0, FloatKind) := 0, KSlot(1, FloatKind) := 1, KSlot(2, FloatKind) := 2, KSlot(3, FloatKind) := 3, KSlot(4, FloatKind) := 4]
  }

  function TheKernel(): Kernel {
    Kernel(Env(Body().p, [], Integers()),
           Plan(Body(), false, Found([0, 1, 2], [0, 3, 4, 0, 0, 3], map[], map[]), Entry(), TheFlow(), TheSlots()),
           map[0 := Flt(Float(0)), 1 := Flt(Float(100)), 2 := Flt(Float(1))],
           (n: nat, x: Float) => false)
  }

  lemma AllVisited()
    ensures Body().Valid()
    ensures forall ip :: 0 <= ip <= 5 ==> Body().Visited(ip)
  {
  }

  predicate Leads(j: int, ip: int) {
    (j == 0 && ip == 1) || (j == 1 && ip == 3) || (j == 2 && ip == 3) || (j == 3 && ip == 4) || (j == 4 && ip == 5)
  }

  lemma Edges(j: int, ip: int)
    ensures Body().Valid()
    ensures Body().Edge(j, ip) <==> Leads(j, ip)
  {
  }

  lemma MergedHere(ip: int)
    requires 1 <= ip <= 5
    ensures TheFlow().Fits(Body()) && TheFlow().Merged(Body(), ip)
  {
    hide Loop.Edge;
    var b, f := Body(), TheFlow();
    forall j ensures b.Edge(j, ip) <==> Leads(j, ip) {
      Edges(j, ip);
    }
    assert f.Out(b, 0) == Entry()[4 := FloatKind];
    assert f.Out(b, 1) == Entry()[4 := FloatKind];
    assert f.Out(b, 2) == map[0 := FloatKind];
    assert f.Out(b, 3) == map[0 := FloatKind];
    assert f.Out(b, 4) == map[0 := FloatKind, 3 := FloatKind];
    var from := if ip == 1 then 0 else if ip == 3 then 1 else ip - 1;
    assert ip != 2 ==> b.Edge(from, ip);
  }

  lemma ScannedBody()
    ensures Scanned(Body(), _ => None, false, TheKernel().plan.found)
  {
    AllVisited();
    hide Loop.Visited, Loop.CallFrom, SurelyWritten;
    var b, found := Body(), TheKernel().plan.found;
    assert !b.Skipped(0);
    assert SurelyWritten(b, 4, 5) by {
      hide *;
      WritesFour();
    }
  }

  lemma WritesFour()
    ensures Body().Valid() && SurelyWritten(Body(), 4, 5)
  {
    AllVisited();
    hide Loop.Visited;
    assert WritesUnskipped(Body(), 4, 0);
  }

  lemma FlowsFrom()
    ensures TheFlow().From(Body(), Entry())
  {
    AllVisited();
    hide Loop.Visited, Flow.Merged, Loop.Edge;
    forall ip | 1 <= ip <= 5 ensures TheFlow().Fits(Body()) && TheFlow().Merged(Body(), ip) {
      MergedHere(ip);
    }
  }

  lemma BodyRuns()
    ensures TheFlow().Fits(Body()) && AllRun(Body(), TheFlow(), 5)
    ensures EndsAsItStarts(Body(), TheFlow(), Entry(), TheKernel().plan.found.written)
  {
    hide Loop.Visited;
  }

  lemma SlotsGiven()
    ensures Body().Valid() && Slotted(TheKernel().plan)
  {
  }

  lemma PlannedBody()
    ensures Planned(TheKernel().plan)
  {
    FlowsFrom();
    BodyRuns();
    SlotsGiven();
    hide Flow.From, AllRun, EndsAsItStarts, Slotted;
  }

  lemma BodyAccepted()
    ensures Accepted(TheKernel(), _ => None) && Enters(TheKernel(), map[])
  {
    AllVisited();
    ScannedBody();
    PlannedBody();
    hide Loop.Visited, Scanned, Planned;
  }

  // ---------- The planner on it ----------

  lemma BodyScans()
    ensures Scannable(Body(), _ => true, _ => None)
  {
    AllVisited();
    hide Loop.Visited, Loop.CallFrom;
    forall t ensures !IndexedBefore(Body(), t, 5) {
    }
  }

  lemma BodyUses(r: nat)
    ensures Body().Valid()
    ensures WrittenBefore(Body(), r, 5) <==> r == 0 || r == 3 || r == 4
    ensures !LoopRegister(0, r) ==> !EntersBefore(Body(), r, 5)
  {
    AllVisited();
    hide Loop.Visited, Loop.CallFrom;
    var b := Body();
    assert Writes(b.p.code[0]) == Some(4) && Writes(b.p.code[3]) == Some(0) && Writes(b.p.code[4]) == Some(3);
    assert !b.Skipped(0);
  }

  lemma NoCalls(b: Loop)
    requires b.Valid() && forall i :: i in b.p.code ==> !i.GetUpValue? && !i.GetTable? && !i.SetTable?
    ensures CallsNoted(b, _ => None, map[], b.latch) && BuffersNoted(b, map[], b.latch)
  {
    hide Loop.Visited, Loop.CallFrom;
  }

  lemma BodyFound()
    ensures FoundIn(Body(), _ => None, false, TheKernel().plan.found)
  {
    AllVisited();
    hide Loop.Visited, WrittenBefore, EntersBefore, CallsNoted, BuffersNoted;
    NoCalls(Body());
    forall r: nat
      ensures WrittenBefore(Body(), r, 5) <==> r == 0 || r == 3 || r == 4
      ensures !LoopRegister(0, r) ==> !EntersBefore(Body(), r, 5)
    {
      BodyUses(r);
    }
  }

  lemma NoClash()
    ensures TheFlow().Fits(Body()) && !TheFlow().Clashes(Body())
  {
    hide Loop.Edge;
    var b, f := Body(), TheFlow();
    forall ip, r, i, j
      ensures !f.Clash(b, ip, r, i, j)
    {
      Edges(i, ip);
      Edges(j, ip);
    }
  }

  lemma BodyTyping()
    ensures Typing(Body(), _ => None, false, Entry(), TheFlow())
  {
    hide FoundIn, Flow.From, Flow.Clashes, AllRun, EndsAsItStarts;
    BodyFound();
    FlowsFrom();
    BodyRuns();
    NoClash();
    assert EntryOf([0, 1, 2], 0, false) == Entry();
    assert TypingOf(Body(), false, TheKernel().plan.found, Entry(), TheFlow());
  }

  /** Registers 0 to 4 hold floats, and nothing else is held. */
  lemma FiveNeeded(b: Loop, types: Types, results: map<int, Kind>)
    requires b.Valid() && forall s :: Needs(b, types, results, s) ==> s in TheSlots()
    ensures Enough(b, types, results, 8, 8)
  {
    hide Needs;
    forall ints: bool
      ensures !NeedsMore(b, types, results, ints, 8)
    {
      forall need: set<KSlot> | AllNeeded(b, types, results, need, ints)
        ensures |need| <= 8
      {
        FewerOrEqual(need, TheSlots().Keys);
        FiveSlots();
      }
    }
  }

  lemma FiveSlots()
    ensures |TheSlots().Keys| == 5
  {
    assert TheSlots().Keys ==
      {KSlot(0, FloatKind), KSlot(1, FloatKind), KSlot(2, FloatKind), KSlot(3, FloatKind), KSlot(4, FloatKind)};
  }

  lemma BodyQualifies(guesses: Types)
    requires forall r :: r in guesses ==> GuessedIn(Body(), _ => None, false, r, guesses[r])
    ensures Qualifies(Body(), _ => true, _ => None, false, guesses, 8, 8) && Follows(guesses, Entry())
  {
    hide Scannable, Typing, Enough, GuessedIn, Loop.Visited;
    BodyScans();
    BodyTyping();
    AllVisited();
    FiveNeeded(Body(), Entry(), TheFlow().results);
    forall r | r in guesses
      ensures false
    {
      NoneGuessed(r, guesses[r]);
    }
  }

  /** All types are known on entry. */
  lemma NoneGuessed(r: nat, k: Kind)
    ensures !GuessedIn(Body(), _ => None, false, r, k)
  {
    hide Likelier, Flow.From, CallsNoted, BuffersNoted, WrittenBefore, EntersBefore, Loop.Visited;
    forall found | FoundIn(Body(), _ => None, false, found)
      ensures !Guessed(Body(), EntryOf(found.liveIn, 0, false), r, k)
    {
      BodyFound();
      SameLeaves(Body(), _ => None, false, found, TheKernel().plan.found);
      forall q: nat ensures !LoopRegister(0, q) ==> !EntersBefore(Body(), q, 5) {
        BodyUses(q);
      }
    }
  }

  /** The planner has a plan for it, in which register 4 has no type at the FORLOOP. */
  method DeadStorePlanned() returns (plan: Option<Plan>)
    ensures plan.Some? && plan.value.b == Body() && plan.value.types == Entry()
    ensures Scanned(plan.value.b, _ => None, false, plan.value.found) && Planned(plan.value)
    ensures 4 in plan.value.found.written && plan.value.flow.Fits(Body()) && 4 !in plan.value.flow.At(Body(), 5)
  {
    hide *;
    BodyShape();
    ghost var guesses: Types;
    plan, guesses := PlanKernel(Body().p, 5, false, 8, 8, _ => true, _ => None);
    BodyQualifies(guesses);
    BodyTyping();
    PlannedStale(plan.value, guesses);
  }

  lemma BodyShape()
    ensures |Body().p.code| == 6 && Body().p.code[5] == ForLoop(0, -6) && Body() == Loop(Body().p, 0, 5)
  {
  }

  lemma PlannedStale(plan: Plan, guesses: Types)
    requires plan.b == Body() && PlanGood(plan, _ => None, false, 8, 8) && OnlyTypingIs(plan, _ => None, guesses)
    requires Follows(guesses, Entry()) && Typing(Body(), _ => None, false, Entry(), TheFlow())
    ensures plan.types == Entry() && Scanned(plan.b, _ => None, false, plan.found) && Planned(plan)
    ensures 4 in plan.found.written && plan.flow.Fits(Body()) && 4 !in plan.flow.At(Body(), 5)
  {
    hide Typing, Scanned, Flow.From, AllRun, EndsAsItStarts, Slotted, Loop.Visited, WrittenBefore, EntersBefore, CallsNoted, BuffersNoted;
    AllVisited();
    FlowsFrom();
    FlowUnique(Body(), plan.flow, TheFlow(), Entry(), 5);
    BodyUses(4);
    FlowFits(Body(), plan.flow, Entry());
  }

  // ---------- One iteration ----------

  function With(m: Machine, r: nat, bits: int): Machine {
    m.(floats := m.floats[r := Float(bits)])
  }

  lemma Registers(m: Machine, r: nat, bits: int)
    requires r <= 4
    ensures TheKernel().SetFloat(m, r, Float(bits)) == With(m, r, bits)
    ensures TheKernel().FloatReg(m, r) == if r in m.floats then m.floats[r] else Float(0)
  {
  }

  lemma CodeAt(ip: int, m: Machine, heap: Heap)
    requires ip == 0 || ip == 1 || ip == 3 || ip == 4
    ensures TheKernel().Valid()
    ensures TheKernel().BodyStep(ip, m, heap) ==
      if ip == 0 then Goto(1, With(m, 4, 1), heap) else if ip == 1 then Goto(3, m, heap)
      else if ip == 3 then Goto(4, With(m, 0, 1), heap) else Goto(5, With(m, 3, 1), heap)
  {
  }

  lemma BodyRunsOn(m: Machine, heap: Heap)
    ensures TheKernel().Valid()
    ensures TheKernel().RunBody(0, m, heap) == AtLatch(With(With(With(m, 4, 1), 0, 1), 3, 1), heap)
  {
    hide Kernel.BodyStep;
    var k, m1, m2 := TheKernel(), With(m, 4, 1), With(With(m, 4, 1), 0, 1);
    CodeAt(0, m, heap);
    CodeAt(1, m1, heap);
    CodeAt(3, m1, heap);
    CodeAt(4, m2, heap);
    assert k.RunBody(5, With(m2, 3, 1), heap) == AtLatch(With(m2, 3, 1), heap);
    assert k.RunBody(4, m2, heap) == AtLatch(With(m2, 3, 1), heap);
    assert k.RunBody(3, m1, heap) == AtLatch(With(m2, 3, 1), heap);
    assert k.RunBody(1, m1, heap) == AtLatch(With(m2, 3, 1), heap);
  }

  /** The machine holds the loop's index, limit and step. */
  predicate AtIndex(m: Machine, index: int) {
    && 0 in m.floats && 1 in m.floats && 2 in m.floats
    && m.floats[0] == Float(index) && m.floats[1] == Float(100) && m.floats[2] == Float(1)
  }

  lemma GoesOn(m: Machine, index: int)
    requires AtIndex(m, index) && index < 100
    ensures TheKernel().Valid() && TheKernel().LoopStep(m) == Some(With(With(m, 0, index + 1), 3, index + 1))
  {
  }

  lemma LoadedMachine()
    ensures AtIndex(TheKernel().Load(3), 0)
  {
  }

  lemma Flushes(m: Machine)
    ensures TheKernel().Valid() && Get(TheKernel().Flush(TheKernel().At(5), m), 4) == Nil
  {
  }

  lemma Shape()
    ensures TheKernel().Valid() && TheKernel().plan.b.latch == 5 && TheKernel().plan.b.start == 0
    ensures |TheKernel().plan.found.liveIn| == 3
  {
  }

  lemma OneIteration(m: Machine, heap: Heap) returns (m': Machine)
    requires AtIndex(m, 1)
    ensures TheKernel().Valid() && TheKernel().Iterate(m, heap, 1) == BudgetExit(TheKernel().Flush(TheKernel().At(5), m'), heap)
  {
    hide Kernel.BodyStep, Kernel.RunBody, Kernel.LoopStep, Kernel.Flush, TheKernel;
    Shape();
    BodyRunsOn(m, heap);
    var end := With(With(With(m, 4, 1), 0, 1), 3, 1);
    GoesOn(end, 1);
    m' := With(With(end, 0, 2), 3, 2);
  }

  /** The kernel after one iteration: register 4 has no type at the FORLOOP, so
      it is not written back. */
  lemma KernelExit(heap: Heap)
    ensures TheKernel().Valid() && TheKernel().Run(heap, 1).BudgetExit? && Get(TheKernel().Run(heap, 1).frame, 4) == Nil
  {
    hide Kernel.BodyStep, Kernel.RunBody, Kernel.LoopStep, Kernel.Load, Kernel.Iterate, Kernel.Flush, TheKernel;
    Shape();
    LoadedMachine();
    var m0 := TheKernel().Load(3);
    GoesOn(m0, 0);
    var m := OneIteration(With(With(m0, 0, 1), 3, 1), heap);
    Flushes(m);
  }

  /** The interpreter after the same iteration. */
  lemma Interpreted(heap: Heap) returns (s': State)
    ensures Bytecode.Run(TheKernel().env, State(5, TheKernel().frame, heap), 6) == Some(s')
    ensures s'.pc == 0 && s'.heap == heap && Get(s'.frame, 4) == Flt(Float(1))
  {
    var env, f0 := TheKernel().env, TheKernel().frame;
    var f1 := f0[0 := Flt(Float(1))][3 := Flt(Float(1))];
    var f2 := f1[4 := Flt(Float(1))];
    var f3 := f2[0 := Flt(Float(1))];
    var f4 := f3[3 := Flt(Float(1))];
    var f5 := f4[0 := Flt(Float(2))][3 := Flt(Float(2))];
    s' := State(0, f5, heap);
    assert Step(env, State(5, f0, heap)) == Some(State(0, f1, heap));
    assert Step(env, State(0, f1, heap)) == Some(State(1, f2, heap));
    assert Step(env, State(1, f2, heap)) == Some(State(3, f2, heap));
    assert Step(env, State(3, f2, heap)) == Some(State(4, f3, heap));
    assert Step(env, State(4, f3, heap)) == Some(State(5, f4, heap));
    assert Step(env, State(5, f4, heap)) == Some(s');
    hide Step;
    OneMore(env, State(5, f0, heap), 0, State(5, f0, heap), State(0, f1, heap));
    OneMore(env, State(5, f0, heap), 1, State(0, f1, heap), State(1, f2, heap));
    OneMore(env, State(5, f0, heap), 2, State(1, f2, heap), State(3, f2, heap));
    OneMore(env, State(5, f0, heap), 3, State(3, f2, heap), State(4, f3, heap));
    OneMore(env, State(5, f0, heap), 4, State(4, f3, heap), State(5, f4, heap));
    OneMore(env, State(5, f0, heap), 5, State(5, f4, heap), s');
  }

  /** Nothing leads to the store to the index, and after it register 4 has no
      type. */
  lemma DeadStore()
    ensures Body().Valid() && TheKernel().Valid()
    ensures !IndexKept(Body()) && !NoDeadCode(Body()) && !AllTypedAtLatch(TheKernel())
  {
    AllVisited();
    assert !KeepsIndex(Body(), 2);
    hide Loop.Visited, Loop.Edge;
    forall j ensures !Body().Edge(j, 2) {
      Edges(j, 2);
    }
    assert 4 in TheKernel().plan.found.written;
  }

  /** An accepted kernel that passes its entry check, whose exit agrees with
      the interpreter on pc, buffers and typed registers, but not on a register
      that only the code before the dead store writes. */
  lemma StaleAfterDeadStore() returns (k: Kernel, n: nat, s': State)
    ensures Accepted(k, _ => None) && Enters(k, map[]) && !IndexKept(k.plan.b)
    ensures !NoDeadCode(k.plan.b) && !AllTypedAtLatch(k)
    ensures k.plan.b.latch + 1 + k.env.p.code[k.plan.b.latch].sbx == k.plan.b.start
    ensures Bytecode.Run(k.env, State(k.plan.b.latch, k.frame, map[]), n) == Some(s') && s'.pc == k.plan.b.start
    ensures k.Run(map[], 1).BudgetExit? && !SameFrames(k, k.Run(map[], 1), s')
  {
    hide Accepted, Enters, Kernel.Run, Step;
    k, n := TheKernel(), 6;
    BodyAccepted();
    KernelExit(map[]);
    s' := Interpreted(map[]);
    DeadStore();
  }

  // ---------- A jump into a test ----------

  /** The first test jumps to the JMP that the second one takes along. */
  function IntoTest(): Loop {
    Loop(Proto([Compare(LessThan, true, R(0), R(1)), Jump(0, 2), LoadConstant(4, 0),
                Compare(LessThan, true, R(0), R(1)), Jump(0, 0), ForLoop(0, -6)], [Flt(Float(1))]), 0, 5)
  }

  function IntoFlow(): Flow {
    Flow(seq(6, _ => IntoTypes()), map[2 := FloatKind])
  }

  function IntoTypes(): Types {
    Entry()[4 := FloatKind]
  }

  function IntoPlan(): Plan {
    Plan(IntoTest(), false, Found([0, 1, 2, 4], [0, 3, 4], map[], map[]), IntoTypes(), IntoFlow(), TheSlots())
  }

  lemma IntoVisited()
    ensures IntoTest().Valid()
    ensures forall ip :: 0 <= ip <= 5 ==> (IntoTest().Visited(ip) <==> ip != 1 && ip != 4)
  {
    var b := IntoTest();
    assert b.Visited(0) && b.Visited(2) && b.Visited(3) && b.Visited(5);
    assert !b.Visited(1) && !b.Visited(4);
  }

  lemma IntoEdges(j: int, ip: int)
    ensures IntoTest().Valid()
    ensures IntoTest().Edge(j, ip) <==> (j == 0 && (ip == 2 || ip == 4)) || (j == 2 && ip == 3) || (j == 3 && ip == 5)
  {
    IntoVisited();
    hide Loop.Visited;
  }

  lemma IntoMerged(ip: int)
    requires ip == 2 || ip == 3 || ip == 5
    ensures IntoFlow().Fits(IntoTest()) && IntoFlow().Merged(IntoTest(), ip)
  {
    hide Loop.Edge;
    var b, f := IntoTest(), IntoFlow();
    forall j ensures b.Edge(j, ip) <==> (j == 0 && ip == 2) || (j == 2 && ip == 3) || (j == 3 && ip == 5) {
      IntoEdges(j, ip);
    }
    forall j | 0 <= j < 5
      ensures f.Out(b, j) == IntoTypes()
    {
      assert f.At(b, j) == IntoTypes();
    }
    var from := if ip == 2 then 0 else if ip == 3 then 2 else 3;
    assert b.Edge(from, ip);
  }

  lemma IntoFlows()
    ensures IntoFlow().From(IntoTest(), IntoTypes())
  {
    IntoVisited();
    hide Loop.Visited, Flow.Merged, Loop.Edge;
    forall ip | ip == 2 || ip == 3 || ip == 5
      ensures IntoFlow().Fits(IntoTest()) && IntoFlow().Merged(IntoTest(), ip)
    {
      IntoMerged(ip);
    }
  }

  lemma IntoRuns()
    ensures IntoFlow().Fits(IntoTest()) && AllRun(IntoTest(), IntoFlow(), 5)
    ensures EndsAsItStarts(IntoTest(), IntoFlow(), IntoTypes(), [0, 3, 4])
  {
    IntoVisited();
    hide Loop.Visited;
  }

  lemma IntoUnbound()
    ensures IntoTest().Valid() && !Assembles(IntoTest())
  {
    IntoVisited();
    hide Loop.Visited;
    assert IntoTest().KernelJump(0) == Some(4);
  }

  lemma IntoScans()
    ensures Scannable(IntoTest(), _ => true, _ => None)
  {
    IntoVisited();
    hide Loop.Visited, Loop.CallFrom;
    forall t ensures !IndexedBefore(IntoTest(), t, 5) {
    }
  }

  lemma IntoUses(r: nat)
    ensures IntoTest().Valid()
    ensures WrittenBefore(IntoTest(), r, 5) <==> r == 4
    ensures !LoopRegister(0, r) ==> (EntersBefore(IntoTest(), r, 5) <==> r == 4)
  {
    IntoVisited();
    hide Loop.Visited, Loop.CallFrom;
    var b := IntoTest();
    assert Writes(b.p.code[2]) == Some(4);
    assert b.KernelJump(0) == Some(4) && b.Leaps(0, 2) && b.Skipped(2);
    assert !UsedBefore(b, 4, 2);
    assert EntersAt(b, 4, 2);
  }

  lemma IntoFound()
    ensures FoundIn(IntoTest(), _ => None, false, IntoPlan().found)
  {
    IntoVisited();
    hide Loop.Visited, WrittenBefore, EntersBefore, CallsNoted, BuffersNoted;
    NoCalls(IntoTest());
    forall r: nat
      ensures WrittenBefore(IntoTest(), r, 5) <==> r == 4
      ensures !LoopRegister(0, r) ==> (EntersBefore(IntoTest(), r, 5) <==> r == 4)
    {
      IntoUses(r);
    }
  }

  lemma IntoNoClash()
    ensures IntoFlow().Fits(IntoTest()) && !IntoFlow().Clashes(IntoTest())
  {
    hide Loop.Edge;
    var b, f := IntoTest(), IntoFlow();
    forall ip, r, i, j
      ensures !f.Clash(b, ip, r, i, j)
    {
      IntoEdges(i, ip);
      IntoEdges(j, ip);
    }
  }

  /** Register 4 is open on entry. */
  function IntoEntry(): Types {
    Entry()[4 := AnyKind]
  }

  lemma IntoTyping()
    ensures Typing(IntoTest(), _ => None, false, IntoTypes(), IntoFlow())
  {
    hide FoundIn, Flow.From, Flow.Clashes, AllRun, EndsAsItStarts;
    IntoFound();
    IntoFlows();
    IntoRuns();
    IntoNoClash();
    assert EntryOf([0, 1, 2, 4], 0, false) == IntoEntry();
    assert TypingOf(IntoTest(), false, IntoPlan().found, IntoTypes(), IntoFlow());
  }

  /** Any flow has decided register 4 at the end. */
  lemma FourDecided(p: Types, f: Flow)
    requires f.From(IntoTest(), p)
    ensures f.Fits(IntoTest()) && TypeOf(f.At(IntoTest(), 5), 4) == FloatKind
  {
    var b := IntoTest();
    IntoVisited();
    hide Loop.Visited, Loop.Edge;
    IntoEdges(2, 3);
    IntoEdges(3, 5);
    forall j
      ensures b.Edge(j, 3) ==> j == 2
      ensures b.Edge(j, 5) ==> j == 3
    {
      IntoEdges(j, 3);
      IntoEdges(j, 5);
    }
    assert 4 in f.Out(b, 2) && f.Out(b, 2)[4] == FloatKind;
    assert f.Everywhere(b, 3, 4);
    assert 4 in f.At(b, 3) && f.At(b, 3)[4] == FloatKind;
    assert f.Out(b, 3) == f.At(b, 3);
    assert f.Everywhere(b, 5, 4) && b.Edge(3, 5);
    assert f.Merged(b, 5) && Decides(f.Out(b, 3)[4], f.At(b, 5)[4]);
  }

  lemma IntoNoneGuessed(r: nat, k: Kind)
    ensures !GuessedIn(IntoTest(), _ => None, false, r, k)
  {
    hide Likelier, Flow.From, CallsNoted, BuffersNoted, WrittenBefore, EntersBefore, Loop.Visited;
    forall found | FoundIn(IntoTest(), _ => None, false, found)
      ensures !Guessed(IntoTest(), EntryOf(found.liveIn, 0, false), r, k)
    {
      IntoFound();
      SameLeaves(IntoTest(), _ => None, false, found, IntoPlan().found);
      forall q: nat ensures !LoopRegister(0, q) ==> (EntersBefore(IntoTest(), q, 5) <==> q == 4) {
        IntoUses(q);
      }
      forall p, f: Flow
        ensures !OpenOn(IntoTest(), EntryOf(found.liveIn, 0, false), p, f, r)
      {
        if f.From(IntoTest(), p) {
          FourDecided(p, f);
        }
      }
    }
  }

  lemma IntoQualifies(guesses: Types)
    requires forall r :: r in guesses ==> GuessedIn(IntoTest(), _ => None, false, r, guesses[r])
    ensures Qualifies(IntoTest(), _ => true, _ => None, false, guesses, 8, 8)
  {
    hide Scannable, Typing, Enough, GuessedIn, Loop.Visited;
    IntoScans();
    IntoTyping();
    IntoVisited();
    FiveNeeded(IntoTest(), IntoTypes(), IntoFlow().results);
    forall r | r in guesses
      ensures false
    {
      IntoNoneGuessed(r, guesses[r]);
    }
  }

  lemma IntoShape()
    ensures |IntoTest().p.code| == 6 && IntoTest().p.code[5] == ForLoop(0, -6) && IntoTest() == Loop(IntoTest().p, 0, 5)
  {
  }

  /** The planner has a plan for it, though the emitter binds no label for the jump. */
  method PlannedUnassembled() returns (plan: Option<Plan>)
    ensures plan.Some? && plan.value.b == IntoTest()
    ensures plan.value.b.Valid() && !Assembles(plan.value.b)
  {
    hide *;
    IntoShape();
    ghost var guesses: Types;
    plan, guesses := PlanKernel(IntoTest().p, 5, false, 8, 8, _ => true, _ => None);
    IntoQualifies(guesses);
    IntoUnbound();
  }
}
