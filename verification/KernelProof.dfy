/** Kernels simulate the interpreter: an accepted plan's code, run for any
    number of iterations and flushed, leaves the frame, the buffers and the pc
    that the interpreter reaches. */
module KernelProof {
  import opened Wrappers
  import opened Int64
  import opened IntegerDivision
  import opened Division
  import opened Bytecode
  import opened KernelFlow
  import opened KernelTypes
  import opened KernelScan
  import opened KernelPlan
  import opened KernelCode

  /** A kernel for an accepted plan whose code assembles. */
  ghost predicate Accepted(k: Kernel, intrinsic: nat -> Option<nat>) {
    && k.Valid()
    && Scanned(k.plan.b, intrinsic, k.plan.intLoop, k.plan.found)
    && Planned(k.plan)
    && Assembles(k.plan.b)
    && k.env.ops.Exact()
  }

  /** The buffers are still where the entry check found them. */
  ghost predicate BuffersStay(k: Kernel, heap: Heap) {
    forall t :: t in k.plan.found.buffers ==>
      k.BufferOf(heap, t).Some? && (k.plan.found.buffers[t] ==> k.BufferOf(heap, t).value.Floats?)
  }

  // ---------- Types are sound ----------

  /** The types at ip are all decided and have machine registers. */
  ghost predicate DecidedAt(k: Kernel, ip: int)
    requires k.Valid() && k.plan.b.start <= ip <= k.plan.b.latch
  {
    forall r :: r in k.At(ip) ==> k.At(ip)[r] != AnyKind && KSlot(r, k.At(ip)[r]) in k.plan.slots
  }

  /** What the instruction at ip writes has a decided type and a machine register. */
  ghost predicate WriteDecided(k: Kernel, ip: int)
    requires k.Valid() && k.plan.b.start <= ip < k.plan.b.latch && Writes(k.env.p.code[ip]).Some?
  {
    && ip in k.plan.flow.results && k.plan.flow.results[ip] != AnyKind
    && Result(k.env.p, k.env.p.code[ip], k.At(ip)) == (k.plan.flow.results[ip], true)
    && KSlot(Writes(k.env.p.code[ip]).value, k.plan.flow.results[ip]) in k.plan.slots
    && Writes(k.env.p.code[ip]).value in k.plan.found.written
  }

  lemma WritesDecided(k: Kernel, intrinsic: nat -> Option<nat>, ip: int)
    requires Accepted(k, intrinsic) && k.plan.b.start <= ip < k.plan.b.latch && k.plan.b.Visited(ip)
    requires Writes(k.env.p.code[ip]).Some?
    ensures WriteDecided(k, ip)
  {
    hide Accepted, Runs, Accounted, Result, Loop.Visited, Kernel.At;
    ValidKernel(k, intrinsic);
    ResultRecorded(k, intrinsic, ip);
    RunsAt(k, intrinsic, ip);
    RunsDecided(k.env.p, k.env.p.code[ip], k.At(ip), k.plan.flow.results[ip]);
    ScannedAt(k, intrinsic, ip);
    AccountedWrites(k, intrinsic, ip);
  }

  lemma ResultRecorded(k: Kernel, intrinsic: nat -> Option<nat>, ip: int)
    requires Accepted(k, intrinsic) && k.plan.b.start <= ip < k.plan.b.latch && k.plan.b.Visited(ip)
    requires Writes(k.env.p.code[ip]).Some?
    ensures ip in k.plan.flow.results
    ensures Result(k.env.p, k.env.p.code[ip], k.At(ip)) == (k.plan.flow.results[ip], true)
    ensures KSlot(Writes(k.env.p.code[ip]).value, k.plan.flow.results[ip]) in k.plan.slots
  {
    hide Scanned, Flow.Merged, AllRun, EndsAsItStarts, EntrySlots, Separate, Result, Loop.Visited, Assembles;
    assert k.plan.flow.At(k.plan.b, ip) == k.At(ip);
  }

  lemma RunsDecided(p: Proto, i: Instr, state: Types, result: Kind)
    requires Writes(i).Some? && Runs(p, i, state, result)
    ensures result != AnyKind
  {
  }

  lemma AccountedWrites(k: Kernel, intrinsic: nat -> Option<nat>, ip: int)
    requires k.Valid() && k.plan.b.start <= ip < k.plan.b.latch && Accounted(k.plan.b, intrinsic, k.plan.found, ip)
    requires Writes(k.env.p.code[ip]).Some?
    ensures Writes(k.env.p.code[ip]).value in k.plan.found.written
  {
  }

  lemma ScannedAt(k: Kernel, intrinsic: nat -> Option<nat>, ip: int)
    requires Accepted(k, intrinsic) && k.plan.b.start <= ip < k.plan.b.latch && k.plan.b.Visited(ip)
    ensures Accounted(k.plan.b, intrinsic, k.plan.found, ip)
  {
    hide Loop.Visited, Accounted;
  }

  lemma RunsAt(k: Kernel, intrinsic: nat -> Option<nat>, ip: int)
    requires Accepted(k, intrinsic) && k.plan.b.start <= ip < k.plan.b.latch && k.plan.b.Visited(ip)
    ensures Runs(k.env.p, k.env.p.code[ip], k.At(ip), ResultAt(k.plan.flow.results, ip))
  {
    hide Loop.Visited, Runs, Scanned, Flow.From, Slotted, EndsAsItStarts, Loop.KernelJump, Loop.CallFrom;
    AcceptedFlow(k, intrinsic);
    assert k.plan.flow.At(k.plan.b, ip) == k.At(ip);
  }

  lemma AcceptedFlow(k: Kernel, intrinsic: nat -> Option<nat>)
    requires Accepted(k, intrinsic)
    ensures k.plan.flow.Fits(k.plan.b)
  {
  }

  lemma MergedAt(k: Kernel, intrinsic: nat -> Option<nat>, ip: int)
    requires Accepted(k, intrinsic) && k.plan.b.start < ip <= k.plan.b.latch && k.plan.b.Visited(ip)
    ensures k.plan.flow.Fits(k.plan.b) && k.plan.flow.Merged(k.plan.b, ip) && k.plan.flow.At(k.plan.b, ip) == k.At(ip)
  {
    hide Loop.Visited, Flow.Merged, Scanned, EndsAsItStarts, AllRun, Slotted;
  }

  /** The types after ip, decided. */
  ghost function After(k: Kernel, ip: int): Types
    requires k.Valid() && k.plan.b.start <= ip < k.plan.b.latch
  {
    var w := Writes(k.env.p.code[ip]);
    if w.Some? then k.At(ip)[w.value := ResultAt(k.plan.flow.results, ip)] else k.At(ip)
  }

  /** At a pc every register has the type that each way there gives it. */
  lemma EdgeTypes(k: Kernel, intrinsic: nat -> Option<nat>, j: int, ip: int, r: nat)
    requires Accepted(k, intrinsic) && k.plan.b.start < ip <= k.plan.b.latch && k.plan.b.Visited(ip)
    requires k.plan.b.Edge(j, ip) && DecidedAt(k, j) && r in k.At(ip)
    ensures r in After(k, j) && After(k, j)[r] == k.At(ip)[r]
    ensures k.At(ip)[r] != AnyKind && KSlot(r, k.At(ip)[r]) in k.plan.slots
  {
    hide Loop.Visited, Scanned, Planned, Result, Loop.KernelJump;
    var b := k.plan.b;
    MergedAt(k, intrinsic, ip);
    assert k.plan.flow.Out(b, j) == After(k, j) by {
      if Writes(k.env.p.code[j]).Some? { WritesDecided(k, intrinsic, j); }
    }
    if Writes(k.env.p.code[j]).Some? { WritesDecided(k, intrinsic, j); }
  }

  lemma {:induction false} Decided(k: Kernel, intrinsic: nat -> Option<nat>, ip: int)
    requires Accepted(k, intrinsic) && k.plan.b.start <= ip <= k.plan.b.latch && k.plan.b.Visited(ip)
    ensures DecidedAt(k, ip)
    decreases ip
  {
    hide Loop.Visited, Scanned, Result, Runs, Loop.KernelJump;
    var b := k.plan.b;
    if ip == b.start {
      EntryDecided(k, intrinsic);
    } else {
      MergedAt(k, intrinsic, ip);
      forall r | r in k.At(ip)
        ensures k.At(ip)[r] != AnyKind && KSlot(r, k.At(ip)[r]) in k.plan.slots
      {
        assert k.plan.flow.Everywhere(b, ip, r);
        var j :| b.Edge(j, ip);
        EdgeBack(b, j, ip);
        Decided(k, intrinsic, j);
        EdgeTypes(k, intrinsic, j, ip, r);
      }
    }
  }

  lemma EdgeBack(b: Loop, j: int, ip: int)
    requires b.Valid() && b.Edge(j, ip)
    ensures b.start <= j < ip && j < b.latch && b.Visited(j)
  {
  }

  lemma EntryDecided(k: Kernel, intrinsic: nat -> Option<nat>)
    requires Accepted(k, intrinsic)
    ensures k.At(k.plan.b.start) == k.plan.types && DecidedAt(k, k.plan.b.start)
  {
    hide Loop.Visited, Flow.Merged, Scanned, EndsAsItStarts, AllRun;
    forall r | r in k.plan.types ensures k.plan.types[r] != AnyKind {
      assert r !in Undecided(k.plan.types);
    }
  }

  // ---------- Pending functions ----------

  /** Between the GETUPVAL at u and the CALL it feeds, its register holds the
      function in the interpreter's frame only. */
  ghost predicate PendingAt(b: Loop, u: int, r: nat, ip: int) {
    && b.Valid() && b.start <= u < ip && u < b.latch && b.Visited(u)
    && b.p.code[u].GetUpValue? && b.p.code[u].a == r
    && b.IntrinsicCall(u).Some? && ip <= b.IntrinsicCall(u).value
  }

  ghost predicate Pending(b: Loop, r: nat, ip: int) {
    exists u :: PendingAt(b, u, r, ip)
  }

  /** While a function is pending, instructions spare its register until the
      CALL, and no jump lands. */
  lemma PendingSpan(b: Loop, u: int, r: nat, ip: int)
    requires PendingAt(b, u, r, ip)
    ensures ip <= b.IntrinsicCall(u).value < b.latch && !b.LandsAt(ip)
    ensures if ip < b.IntrinsicCall(u).value then Spares(b.p.code[ip], r) else b.p.code[ip] == Call(r, 2, 2)
  {
    b.CallFromSpans(b.p.code[u].a, u + 1);
  }

  /** Running on from j to ip keeps a pending function, or makes one pending. */
  lemma PendingBefore(b: Loop, u: int, r: nat, j: int, ip: int)
    requires b.Valid() && PendingAt(b, u, r, ip) && b.Edge(j, ip)
    ensures u == j || PendingAt(b, u, r, j)
  {
    PendingSpan(b, u, r, ip);
    NoLanding(b, j, ip);
    if b.p.code[j].Compare? {
      // Only the JMP of the test at j lies between.
      b.NotConsumed(j);
    }
  }

  lemma NoLanding(b: Loop, j: int, ip: int)
    requires b.Valid() && b.start <= j < b.latch && !b.LandsAt(ip)
    ensures b.KernelJump(j) != Some(ip)
  {
  }

  /** A function no longer pending was pending up to its CALL. */
  lemma PendingUntil(b: Loop, u: int, r: nat, j: int, ip: int)
    requires b.Valid() && PendingAt(b, u, r, j) && b.Edge(j, ip)
    ensures b.p.code[j] == Call(r, 2, 2) || PendingAt(b, u, r, ip)
  {
    PendingSpan(b, u, r, j);
  }

  /** No instruction reads a pending function as a number. */
  lemma ReadsNotPending(b: Loop, ip: int, r: nat)
    requires b.Valid() && b.start <= ip < b.latch && ReadsRegister(b.p.code[ip], r)
    ensures !Pending(b, r, ip)
  {
    if Pending(b, r, ip) {
      var u :| PendingAt(b, u, r, ip);
      PendingSpan(b, u, r, ip);
    }
  }

  // ---------- The simulation ----------

  /** The kernel has v where it keeps r as a t. */
  ghost predicate Holds(k: Kernel, m: Machine, r: nat, t: Kind, v: Value) {
    (t == IntKind && v == Int(k.IntReg(m, r))) || (t == FloatKind && v == Flt(k.FloatReg(m, r)))
  }

  /** v is what the GETUPVAL at u loads. */
  predicate LoadedAt(k: Kernel, u: int, v: Value) {
    0 <= u < |k.env.p.code| && k.env.p.code[u].GetUpValue? && v == UpValue(k.env, k.env.p.code[u].n)
  }

  /** The kernel with machine m at ip is where the interpreter in state s is:
      typed registers agree, but for a pending function, and the registers the
      loop never writes are as they were. */
  ghost predicate Sim(k: Kernel, ip: int, m: Machine, s: State)
    requires k.Valid() && k.plan.b.start <= ip <= k.plan.b.latch
  {
    && s.pc == ip
    && (forall r :: r in k.At(ip) && !Pending(k.plan.b, r, ip) ==> Holds(k, m, r, k.At(ip)[r], Get(s.frame, r)))
    && (forall r :: r !in k.plan.found.written ==> Get(s.frame, r) == Get(k.frame, r))
    && (forall r :: r in k.plan.types && r !in k.plan.found.written ==> Holds(k, m, r, k.plan.types[r], Get(s.frame, r)))
    && (forall u, r :: PendingAt(k.plan.b, u, r, ip) ==> LoadedAt(k, u, Get(s.frame, r)))
  }

  /** The machine with number v in register r's machine register for its type. */
  ghost function SetReg(k: Kernel, m: Machine, r: nat, v: Value): Machine
    requires v.Number?()
  {
    if v.Int? then k.SetInt(m, r, v.i) else k.SetFloat(m, r, v.f)
  }

  lemma SetHolds(k: Kernel, m: Machine, a: nat, t: Kind, v: Value)
    requires Fits(t, v) && KSlot(a, t) in k.plan.slots
    ensures Holds(k, SetReg(k, m, a, v), a, t, v)
  {
  }

  lemma SetKeeps(k: Kernel, m: Machine, a: nat, v: Value, r: nat, t: Kind, w: Value)
    requires Separate(k.plan.slots) && v.Number?() && r != a && Holds(k, m, r, t, w)
    ensures Holds(k, SetReg(k, m, a, v), r, t, w)
  {
  }

  /** An instruction that writes number v to its register, in both. */
  lemma WriteSim(k: Kernel, intrinsic: nat -> Option<nat>, ip: int, m: Machine, s: State, a: nat, v: Value)
    requires Accepted(k, intrinsic) && k.plan.b.start <= ip < k.plan.b.latch && k.plan.b.Visited(ip)
    requires Writes(k.env.p.code[ip]) == Some(a) && Sim(k, ip, m, s)
    requires ip in k.plan.flow.results && Fits(k.plan.flow.results[ip], v)
    ensures k.plan.b.Visited(ip + 1)
    ensures Sim(k, ip + 1, SetReg(k, m, a, v), Next(s, a, v))
  {
    hide Loop.Visited, Scanned, Planned, Result, Loop.KernelJump, Loop.CallFrom, Holds, Pending, PendingAt, SetReg;
    var b := k.plan.b;
    var m', s' := SetReg(k, m, a, v), Next(s, a, v);
    NextPcOf(b, ip);
    WritesDecided(k, intrinsic, ip);
    Decided(k, intrinsic, ip);
    SlotsSeparate(k, intrinsic);
    forall r | r in k.At(ip + 1) && !Pending(b, r, ip + 1)
      ensures Holds(k, m', r, k.At(ip + 1)[r], Get(s'.frame, r))
    {
      EdgeTypes(k, intrinsic, ip, ip + 1, r);
      if r == a {
        SetHolds(k, m, a, k.plan.flow.results[ip], v);
      } else {
        StillNotPending(b, r, ip);
        SetKeeps(k, m, a, v, r, k.At(ip)[r], Get(s.frame, r));
      }
    }
    forall r | r in k.plan.types && r !in k.plan.found.written
      ensures Holds(k, m', r, k.plan.types[r], Get(s'.frame, r))
    {
      SetKeeps(k, m, a, v, r, k.plan.types[r], Get(s.frame, r));
    }
    forall u, r | PendingAt(b, u, r, ip + 1)
      ensures LoadedAt(k, u, Get(s'.frame, r))
    {
      WritesNotPending(b, u, r, ip);
    }
  }

  lemma SlotsSeparate(k: Kernel, intrinsic: nat -> Option<nat>)
    requires Accepted(k, intrinsic)
    ensures Separate(k.plan.slots)
  {
  }

  /** An instruction that neither tests nor jumps runs on to the next pc. */
  lemma NextPcOf(b: Loop, ip: int)
    requires b.Valid() && b.start <= ip < b.latch && b.Visited(ip) && !b.p.code[ip].Compare? && !b.p.code[ip].Jump?
    ensures b.Visited(ip + 1) && b.Edge(ip, ip + 1)
  {
  }

  lemma StillNotPending(b: Loop, r: nat, ip: int)
    requires b.Valid() && b.Edge(ip, ip + 1) && !Pending(b, r, ip + 1) && Writes(b.p.code[ip]) != Some(r)
    ensures !Pending(b, r, ip)
  {
    if Pending(b, r, ip) {
      var u :| PendingAt(b, u, r, ip);
      PendingUntil(b, u, r, ip, ip + 1);
    }
  }

  lemma WritesNotPending(b: Loop, u: int, r: nat, ip: int)
    requires b.Valid() && b.Edge(ip, ip + 1) && PendingAt(b, u, r, ip + 1) && Writes(b.p.code[ip]).Some?
    ensures PendingAt(b, u, r, ip) && Writes(b.p.code[ip]) != Some(r)
  {
    PendingBefore(b, u, r, ip, ip + 1);
    PendingSpan(b, u, r, ip);
    PendingSpan(b, u, r, ip + 1);
  }

  /** An instruction that writes no register goes to ip', in both. */
  lemma MoveOnSim(k: Kernel, intrinsic: nat -> Option<nat>, ip: int, m: Machine, s: State, ip': int, heap: Heap)
    requires Accepted(k, intrinsic) && k.plan.b.start <= ip < ip' <= k.plan.b.latch && k.plan.b.Visited(ip) && k.plan.b.Visited(ip')
    requires Writes(k.env.p.code[ip]) == None && !k.env.p.code[ip].GetUpValue?
    requires k.plan.b.Edge(ip, ip') && Sim(k, ip, m, s)
    ensures Sim(k, ip', m, State(ip', s.frame, heap))
  {
    hide Loop.Visited, Scanned, Planned, Result, Loop.KernelJump, Loop.CallFrom, Holds, Pending, PendingAt;
    var b := k.plan.b;
    Decided(k, intrinsic, ip);
    forall r | r in k.At(ip') && !Pending(b, r, ip')
      ensures Holds(k, m, r, k.At(ip')[r], Get(s.frame, r))
    {
      EdgeTypes(k, intrinsic, ip, ip', r);
      NotPendingBefore(b, r, ip, ip');
    }
    forall u, r | PendingAt(b, u, r, ip')
      ensures LoadedAt(k, u, Get(s.frame, r))
    {
      MovesNotPending(b, u, r, ip, ip');
    }
  }

  lemma NotPendingBefore(b: Loop, r: nat, ip: int, ip': int)
    requires b.Valid() && b.Edge(ip, ip') && !Pending(b, r, ip') && Writes(b.p.code[ip]) == None
    ensures !Pending(b, r, ip)
  {
    if Pending(b, r, ip) {
      var u :| PendingAt(b, u, r, ip);
      PendingUntil(b, u, r, ip, ip');
    }
  }

  lemma MovesNotPending(b: Loop, u: int, r: nat, ip: int, ip': int)
    requires b.Valid() && b.Edge(ip, ip') && PendingAt(b, u, r, ip') && !b.p.code[ip].GetUpValue?
    ensures PendingAt(b, u, r, ip)
  {
    PendingBefore(b, u, r, ip, ip');
  }

  /** A GETUPVAL: the interpreter loads the function, the kernel does nothing. */
  lemma LoadFunctionSim(k: Kernel, intrinsic: nat -> Option<nat>, ip: int, m: Machine, s: State)
    requires Accepted(k, intrinsic) && k.plan.b.start <= ip < k.plan.b.latch && k.plan.b.Visited(ip)
    requires k.env.p.code[ip].GetUpValue? && Sim(k, ip, m, s)
    ensures k.plan.b.Visited(ip + 1)
    ensures Sim(k, ip + 1, m, Next(s, k.env.p.code[ip].a, UpValue(k.env, k.env.p.code[ip].n)))
  {
    hide Loop.Visited, Scanned, Planned, Result, Loop.KernelJump, Holds, Loop.CallFrom;
    var b, a := k.plan.b, k.env.p.code[ip].a;
    var s' := Next(s, a, UpValue(k.env, k.env.p.code[ip].n));
    NextPcOf(b, ip);
    Decided(k, intrinsic, ip);
    FunctionWritten(k, intrinsic, ip);
    forall r | r in k.At(ip + 1) && !Pending(b, r, ip + 1)
      ensures Holds(k, m, r, k.At(ip + 1)[r], Get(s'.frame, r))
    {
      EdgeTypes(k, intrinsic, ip, ip + 1, r);
      NotPendingBefore(b, r, ip, ip + 1);
      assert r != a;
    }
    forall u, r | PendingAt(b, u, r, ip + 1)
      ensures LoadedAt(k, u, Get(s'.frame, r))
    {
      OnePending(b, u, r, ip);
    }
  }

  /** The register a GETUPVAL loads is the one its CALL writes. */
  lemma FunctionWritten(k: Kernel, intrinsic: nat -> Option<nat>, ip: int)
    requires Accepted(k, intrinsic) && k.plan.b.start <= ip < k.plan.b.latch && k.plan.b.Visited(ip)
    requires k.env.p.code[ip].GetUpValue?
    ensures PendingAt(k.plan.b, ip, k.env.p.code[ip].a, ip + 1) && k.env.p.code[ip].a in k.plan.found.written
  {
    hide Planned, Result, Loop.KernelJump, Scanned;
    var b, a := k.plan.b, k.env.p.code[ip].a;
    ScannedAt(k, intrinsic, ip);
    var call := b.IntrinsicCall(ip).value;
    b.CallFromSpans(a, ip + 1);
    StraightVisited(b, ip, call);
    ScannedAt(k, intrinsic, call);
  }

  /** A stretch without tests is visited pc by pc. */
  lemma {:induction false} StraightVisited(b: Loop, j: int, ip: int)
    requires b.Valid() && b.Visited(j) && j <= ip < b.latch
    requires forall i :: j <= i < ip ==> !b.p.code[i].Compare?
    ensures b.Visited(ip)
    decreases ip - j
  {
    if j < ip {
      StraightVisited(b, j, ip - 1);
    }
  }

  /** After a GETUPVAL, its function is the only one pending. */
  lemma OnePending(b: Loop, u: int, r: nat, ip: int)
    requires b.Valid() && b.start <= ip < b.latch && b.Visited(ip) && b.p.code[ip].GetUpValue? && PendingAt(b, u, r, ip + 1)
    ensures u == ip && r == b.p.code[ip].a
  {
    if u < ip {
      PendingSpan(b, u, r, ip);
    }
  }

  // ---------- Operands ----------

  /** A field the instruction reads, with an integer type, is the integer that
      the kernel's register holds. */
  lemma IntOperandHolds(k: Kernel, ip: int, m: Machine, s: State, field: RK)
    requires k.Valid() && k.plan.b.start <= ip < k.plan.b.latch && Sim(k, ip, m, s)
    requires field.R? ==> ReadsRegister(k.env.p.code[ip], field.r)
    requires FieldKind(k.env.p, k.At(ip), field) == IntKind
    ensures Operand(k.env, s.frame, field) == Int(k.IntOperand(m, field))
  {
    hide Loop.CallFrom, Pending;
    if field.R? {
      ReadsNotPending(k.plan.b, ip, field.r);
      assert Holds(k, m, field.r, k.At(ip)[field.r], Get(s.frame, field.r));
    }
  }

  /** A field of known type is a number, which the kernel reads as a float. */
  lemma FloatOperandHolds(k: Kernel, ip: int, m: Machine, s: State, field: RK)
    requires k.Valid() && k.plan.b.start <= ip < k.plan.b.latch && Sim(k, ip, m, s)
    requires field.R? ==> ReadsRegister(k.env.p.code[ip], field.r)
    requires Known(k.env.p, k.At(ip), field)
    ensures Fits(FieldKind(k.env.p, k.At(ip), field), Operand(k.env, s.frame, field))
    ensures k.FloatOperand(m, k.At(ip), field) == ToFloat(k.env.ops, Operand(k.env, s.frame, field))
  {
    hide Loop.CallFrom, Pending;
    if field.R? {
      ReadsNotPending(k.plan.b, ip, field.r);
      assert Holds(k, m, field.r, k.At(ip)[field.r], Get(s.frame, field.r));
    }
  }

  // ---------- One instruction ----------

  /** The kernel's code and the interpreter both give register a number v. */
  ghost predicate BothWrite(k: Kernel, ip: int, m: Machine, s: State, a: nat, v: Value)
    requires k.Valid() && k.plan.b.start <= ip < k.plan.b.latch
  {
    && v.Number?() && ip in k.plan.flow.results && Fits(k.plan.flow.results[ip], v)
    && k.BodyStep(ip, m, s.heap) == Goto(ip + 1, SetReg(k, m, a, v), s.heap)
    && Step(k.env, s) == Some(Next(s, a, v))
  }

  /** At ip the kernel is accepted and in step with the interpreter. */
  ghost predicate InStep(k: Kernel, intrinsic: nat -> Option<nat>, ip: int, m: Machine, s: State) {
    && Accepted(k, intrinsic) && k.plan.b.start <= ip < k.plan.b.latch && k.plan.b.Visited(ip)
    && Sim(k, ip, m, s)
  }

  lemma MoveWrites(k: Kernel, intrinsic: nat -> Option<nat>, ip: int, m: Machine, s: State) returns (v: Value)
    requires InStep(k, intrinsic, ip, m, s) && k.env.p.code[ip].Move?
    ensures BothWrite(k, ip, m, s, k.env.p.code[ip].a, v)
  {
    hide Loop.Visited, Scanned, Planned, Sim, Loop.CallFrom, Loop.KernelJump;
    var r := k.env.p.code[ip].b;
    WritesDecided(k, intrinsic, ip);
    FloatOperandHolds(k, ip, m, s, R(r));
    v := Get(s.frame, r);
    if v.Int? { IntOperandHolds(k, ip, m, s, R(r)); }
    PcIs(k, ip, m, s);
  }

  lemma PcIs(k: Kernel, ip: int, m: Machine, s: State)
    requires k.Valid() && k.plan.b.start <= ip <= k.plan.b.latch && Sim(k, ip, m, s)
    ensures s.pc == ip
  {
  }

  lemma UnaryMinusWrites(k: Kernel, intrinsic: nat -> Option<nat>, ip: int, m: Machine, s: State) returns (v: Value)
    requires InStep(k, intrinsic, ip, m, s) && k.env.p.code[ip].UnaryMinus?
    ensures BothWrite(k, ip, m, s, k.env.p.code[ip].a, v)
  {
    hide Loop.Visited, Scanned, Planned, Sim, Loop.CallFrom, Loop.KernelJump, Wrap;
    var r := k.env.p.code[ip].b;
    WritesDecided(k, intrinsic, ip);
    FloatOperandHolds(k, ip, m, s, R(r));
    var x := Get(s.frame, r);
    if x.Int? { IntOperandHolds(k, ip, m, s, R(r)); }
    v := if x.Int? then Int(Wrap(0 - x.i)) else Flt(k.env.ops.neg(x.f));
    PcIs(k, ip, m, s);
  }

  lemma LoadConstantWrites(k: Kernel, intrinsic: nat -> Option<nat>, ip: int, m: Machine, s: State) returns (v: Value)
    requires InStep(k, intrinsic, ip, m, s) && k.env.p.code[ip].LoadConstant?
    ensures BothWrite(k, ip, m, s, k.env.p.code[ip].a, v)
  {
    hide Loop.Visited, Scanned, Planned, Sim, Loop.CallFrom, Loop.KernelJump;
    WritesDecided(k, intrinsic, ip);
    v := Constant(k.env.p, k.env.p.code[ip].bx);
    PcIs(k, ip, m, s);
  }

  lemma ArithWrites(k: Kernel, intrinsic: nat -> Option<nat>, ip: int, m: Machine, s: State) returns (v: Value)
    requires InStep(k, intrinsic, ip, m, s) && k.env.p.code[ip].Arith?
    ensures BothWrite(k, ip, m, s, k.env.p.code[ip].a, v)
  {
    hide Loop.Visited, Scanned, Planned, Sim, Loop.CallFrom, Loop.KernelJump, IntArith, FloatArith;
    var rb, rc := k.env.p.code[ip].rb, k.env.p.code[ip].rc;
    WritesDecided(k, intrinsic, ip);
    RunsAt(k, intrinsic, ip);
    FloatOperandHolds(k, ip, m, s, rb);
    FloatOperandHolds(k, ip, m, s, rc);
    var x, y := Operand(k.env, s.frame, rb), Operand(k.env, s.frame, rc);
    if x.Int? { IntOperandHolds(k, ip, m, s, rb); }
    if y.Int? { IntOperandHolds(k, ip, m, s, rc); }
    v := NumberArith(k.env.ops, k.env.p.code[ip].op, x, y);
    PcIs(k, ip, m, s);
  }

  lemma DivModWrites(k: Kernel, intrinsic: nat -> Option<nat>, ip: int, m: Machine, s: State) returns (v: Value)
    requires InStep(k, intrinsic, ip, m, s) && k.env.p.code[ip].DivMod?
    ensures BothWrite(k, ip, m, s, k.env.p.code[ip].a, v)
  {
    hide Loop.Visited, Scanned, Planned, Sim, Loop.CallFrom, Loop.KernelJump, IntMod, IntFloorDiv, DivideByConstant,
         DivideInstruction, Wrap, PlanOf;
    var modulo, rb, rc := k.env.p.code[ip].modulo, k.env.p.code[ip].rb, k.env.p.code[ip].rc;
    WritesDecided(k, intrinsic, ip);
    ScannedAt(k, intrinsic, ip);
    IntOperandHolds(k, ip, m, s, rb);
    var n, d := k.IntOperand(m, rb), k.IntOperand(m, rc);
    assert Operand(k.env, s.frame, rc) == Int(d) && KernelDivisor(Int(d));
    DivideCodeExact(k, modulo, d, n);
    v := Int(if modulo then IntMod(n, d) else IntFloorDiv(n, d));
    PcIs(k, ip, m, s);
  }

  /** A kernel's division is Lua's, by a plan or by the divide instruction. */
  lemma DivideCodeExact(k: Kernel, modulo: bool, d: int64, n: int64)
    requires KernelDivisor(Int(d))
    ensures k.DivideCode(modulo, d, n) == if modulo then IntMod(n, d) else IntFloorDiv(n, d)
  {
    hide IntMod, IntFloorDiv, DivideByConstant, DivideInstruction, PlanOf, Wrap;
    if Plannable(d) {
      DivideByConstantExact(modulo, d, n);
    } else {
      DivideInstructionExact(modulo, d, n);
    }
    WrapIsIdentity(if modulo then IntMod(n, d) else IntFloorDiv(n, d));
  }

  lemma CallWrites(k: Kernel, intrinsic: nat -> Option<nat>, ip: int, m: Machine, s: State) returns (v: Value)
    requires InStep(k, intrinsic, ip, m, s) && k.env.p.code[ip].Call? && k.BodyStep(ip, m, s.heap).Goto?
    requires CallsHold(k)
    ensures BothWrite(k, ip, m, s, k.env.p.code[ip].a, v)
  {
    hide Loop.Visited, Scanned, Planned, Sim, Loop.CallFrom, Loop.KernelJump;
    var a := k.env.p.code[ip].a;
    WritesDecided(k, intrinsic, ip);
    RunsAt(k, intrinsic, ip);
    FunctionLoaded(k, intrinsic, ip, m, s);
    FloatOperandHolds(k, ip, m, s, R(a + 1));
    v := Flt(k.env.ops.unary(k.plan.found.calls[ip].fn, ToFloat(k.env.ops, Get(s.frame, a + 1))));
    PcIs(k, ip, m, s);
  }

  /** At its CALL, the frame holds the function of the intrinsic's upvalue. */
  lemma FunctionLoaded(k: Kernel, intrinsic: nat -> Option<nat>, ip: int, m: Machine, s: State)
    requires InStep(k, intrinsic, ip, m, s) && k.env.p.code[ip].Call?
    ensures ip in k.plan.found.calls && k.env.p.code[ip] == Call(k.env.p.code[ip].a, 2, 2)
    ensures Get(s.frame, k.env.p.code[ip].a) == UpValue(k.env, k.plan.found.calls[ip].n)
  {
    hide Loop.Visited, Planned, Loop.CallFrom, Loop.KernelJump;
    var b := k.plan.b;
    ScannedAt(k, intrinsic, ip);
    var u :| b.start <= u < b.latch && b.Visited(u) && Feeds(b, intrinsic, u, ip, k.plan.found.calls[ip]);
    b.CallFromSpans(b.p.code[u].a, u + 1);
    assert PendingAt(b, u, b.p.code[u].a, ip);
  }

  /** Comparing the kernel's operands compares the numbers, an integer with a
      float included. */
  lemma CompareExact(ops: FloatOps, cmp: CompareOp, x: Value, y: Value)
    requires ops.Exact() && x.Number?() && y.Number?()
    requires x.Int? && y.Flt? ==> ExactFloat(x.i)
    requires x.Flt? && y.Int? ==> ExactFloat(y.i)
    ensures NumberCompare(ops, cmp, x, y) ==
      if x.Int? && y.Int? then IntCompare(cmp, x.i, y.i) else FloatCompare(ops, cmp, ToFloat(ops, x), ToFloat(ops, y))
  {
  }

  /** A test and the JMP after it. */
  lemma CompareGoes(k: Kernel, intrinsic: nat -> Option<nat>, ip: int, m: Machine, s: State) returns (t: int)
    requires InStep(k, intrinsic, ip, m, s) && k.env.p.code[ip].Compare?
    ensures k.BodyStep(ip, m, s.heap) == Goto(t, m, s.heap) && k.plan.b.Edge(ip, t)
    ensures Step(k.env, s) == Some(State(t, s.frame, s.heap))
  {
    hide Loop.Visited, Scanned, Planned, Sim, Loop.CallFrom, NumberCompare, FloatCompare, IntCompare;
    var rb, rc := k.env.p.code[ip].rb, k.env.p.code[ip].rc;
    ScannedAt(k, intrinsic, ip);
    RunsAt(k, intrinsic, ip);
    FloatOperandHolds(k, ip, m, s, rb);
    FloatOperandHolds(k, ip, m, s, rc);
    var x, y := Operand(k.env, s.frame, rb), Operand(k.env, s.frame, rc);
    if x.Int? { IntOperandHolds(k, ip, m, s, rb); }
    if y.Int? { IntOperandHolds(k, ip, m, s, rc); }
    CompareExact(k.env.ops, k.env.p.code[ip].cmp, x, y);
    PcIs(k, ip, m, s);
    var holds := NumberCompare(k.env.ops, k.env.p.code[ip].cmp, x, y);
    t := if holds != k.env.p.code[ip].want then ip + 2 else k.plan.b.KernelJump(ip).value;
  }

  lemma JumpGoes(k: Kernel, intrinsic: nat -> Option<nat>, ip: int, m: Machine, s: State) returns (t: int)
    requires InStep(k, intrinsic, ip, m, s) && k.env.p.code[ip].Jump?
    ensures k.BodyStep(ip, m, s.heap) == Goto(t, m, s.heap) && k.plan.b.Edge(ip, t)
    ensures Step(k.env, s) == Some(State(t, s.frame, s.heap))
  {
    hide Loop.Visited, Scanned, Planned, Sim, Loop.CallFrom;
    ScannedAt(k, intrinsic, ip);
    PcIs(k, ip, m, s);
    t := k.plan.b.KernelJump(ip).value;
  }

  /** A buffer's register holds in the interpreter what it held on entry. */
  lemma BufferKept(k: Kernel, intrinsic: nat -> Option<nat>, ip: int, m: Machine, s: State, t: nat)
    requires InStep(k, intrinsic, ip, m, s) && t in k.plan.found.buffers
    ensures Get(s.frame, t) == Get(k.frame, t)
  {
    hide Loop.Visited, Planned, Loop.CallFrom, Loop.KernelJump, Accounted, CallsFed;
  }

  lemma GetTableWrites(k: Kernel, intrinsic: nat -> Option<nat>, ip: int, m: Machine, s: State) returns (v: Value)
    requires InStep(k, intrinsic, ip, m, s) && k.env.p.code[ip].GetTable? && k.BodyStep(ip, m, s.heap).Goto?
    requires BuffersStay(k, s.heap)
    ensures BothWrite(k, ip, m, s, k.env.p.code[ip].a, v)
  {
    hide Loop.Visited, Scanned, Planned, Sim, Loop.CallFrom, Loop.KernelJump;
    WritesDecided(k, intrinsic, ip);
    ScannedAt(k, intrinsic, ip);
    RunsAt(k, intrinsic, ip);
    BufferKept(k, intrinsic, ip, m, s, k.env.p.code[ip].b);
    IntOperandHolds(k, ip, m, s, k.env.p.code[ip].rc);
    v := BufferAt(k.env.ops, k.BufferOf(s.heap, k.env.p.code[ip].b).value, Int(k.IntOperand(m, k.env.p.code[ip].rc)));
    PcIs(k, ip, m, s);
  }

  /** A store to a buffer changes the same element in both. */
  lemma SetTableStores(k: Kernel, intrinsic: nat -> Option<nat>, ip: int, m: Machine, s: State) returns (heap: Heap)
    requires InStep(k, intrinsic, ip, m, s) && k.env.p.code[ip].SetTable? && k.BodyStep(ip, m, s.heap).Goto?
    requires BuffersStay(k, s.heap)
    ensures k.BodyStep(ip, m, s.heap) == Goto(ip + 1, m, heap)
    ensures Step(k.env, s) == Some(State(ip + 1, s.frame, heap)) && BuffersStay(k, heap)
  {
    hide Loop.Visited, Scanned, Planned, Sim, Loop.CallFrom, Loop.KernelJump, Narrow;
    var t, rb, rc := k.env.p.code[ip].a, k.env.p.code[ip].rb, k.env.p.code[ip].rc;
    ScannedAt(k, intrinsic, ip);
    RunsAt(k, intrinsic, ip);
    BufferKept(k, intrinsic, ip, m, s, t);
    IntOperandHolds(k, ip, m, s, rb);
    FloatOperandHolds(k, ip, m, s, rc);
    if FieldKind(k.env.p, k.At(ip), rc) == IntKind { IntOperandHolds(k, ip, m, s, rc); }
    PcIs(k, ip, m, s);
    var id, mem := Get(k.frame, t).id, k.BufferOf(s.heap, t).value;
    var key := k.IntOperand(m, rb);
    var v := Operand(k.env, s.frame, rc);
    var mem' := if mem.Floats? then StoreFloat(k.env.ops, mem, key, ToFloat(k.env.ops, v)) else StoreInt(mem, key, v.i);
    assert BufferPut(k.env.ops, mem, Int(key), v) == Some(mem');
    heap := s.heap[id := mem'];
  }

  /** The intrinsics are still in their upvalues. */
  ghost predicate CallsHold(k: Kernel) {
    forall c :: c in k.plan.found.calls ==> UpValue(k.env, k.plan.found.calls[c].n) == Function(k.plan.found.calls[c].fn)
  }

  /** One instruction of the kernel's code is one step of the interpreter. */
  lemma CodeStepSimulates(k: Kernel, intrinsic: nat -> Option<nat>, ip: int, m: Machine, s: State) returns (s': State)
    requires InStep(k, intrinsic, ip, m, s) && BuffersStay(k, s.heap) && CallsHold(k)
    requires k.BodyStep(ip, m, s.heap).Goto?
    ensures var out := k.BodyStep(ip, m, s.heap);
      && ip < out.pc <= k.plan.b.latch && k.plan.b.Visited(out.pc)
      && Step(k.env, s) == Some(s') && s'.heap == out.heap
      && Sim(k, out.pc, out.m, s') && BuffersStay(k, s'.heap)
  {
    hide Loop.Visited, Scanned, Planned, Sim, Loop.CallFrom, Loop.KernelJump, BuffersStay, Kernel.BodyStep, Step, SetReg;
    var i := k.env.p.code[ip];
    PcIs(k, ip, m, s);
    if Writes(i).Some? {
      var v := NumberWrites(k, intrinsic, ip, m, s);
      WriteSim(k, intrinsic, ip, m, s, Writes(i).value, v);
      s' := Next(s, Writes(i).value, v);
    } else if i.Compare? || i.Jump? {
      var t: int;
      if i.Compare? {
        t := CompareGoes(k, intrinsic, ip, m, s);
      } else {
        t := JumpGoes(k, intrinsic, ip, m, s);
      }
      LandsVisited(k, intrinsic, ip, t);
      MoveOnSim(k, intrinsic, ip, m, s, t, s.heap);
      s' := State(t, s.frame, s.heap);
    } else if i.SetTable? {
      var heap := SetTableStores(k, intrinsic, ip, m, s);
      NextPcOf(k.plan.b, ip);
      MoveOnSim(k, intrinsic, ip, m, s, ip + 1, heap);
      s' := State(ip + 1, s.frame, heap);
    } else {
      OnlyGetUpValue(k, intrinsic, ip);
      LoadFunctionSim(k, intrinsic, ip, m, s);
      s' := Next(s, i.a, UpValue(k.env, i.n));
      LoadFunctionStep(k, ip, m, s);
    }
  }

  lemma OnlyGetUpValue(k: Kernel, intrinsic: nat -> Option<nat>, ip: int)
    requires Accepted(k, intrinsic) && k.plan.b.start <= ip < k.plan.b.latch && k.plan.b.Visited(ip)
    requires var i := k.env.p.code[ip]; Writes(i).None? && !i.Compare? && !i.Jump? && !i.SetTable?
    ensures k.env.p.code[ip].GetUpValue?
  {
    hide Loop.Visited, Scanned, Planned, Loop.CallFrom, Loop.KernelJump;
    ScannedAt(k, intrinsic, ip);
  }

  lemma LoadFunctionStep(k: Kernel, ip: int, m: Machine, s: State)
    requires k.Valid() && k.plan.b.start <= ip < k.plan.b.latch && k.env.p.code[ip].GetUpValue? && s.pc == ip
    ensures k.BodyStep(ip, m, s.heap) == Goto(ip + 1, m, s.heap)
    ensures Step(k.env, s) == Some(Next(s, k.env.p.code[ip].a, UpValue(k.env, k.env.p.code[ip].n)))
  {
  }

  /** Where a test or jump of the body goes there is code. */
  lemma LandsVisited(k: Kernel, intrinsic: nat -> Option<nat>, ip: int, t: int)
    requires Accepted(k, intrinsic) && k.plan.b.start <= ip < k.plan.b.latch && k.plan.b.Visited(ip)
    requires k.plan.b.Edge(ip, t)
    ensures ip < t <= k.plan.b.latch && k.plan.b.Visited(t)
  {
    hide Scanned, Planned, Loop.CallFrom;
    ScannedAt(k, intrinsic, ip);
  }

  lemma IndexOf(k: Kernel, intrinsic: nat -> Option<nat>, ip: int, m: Machine, s: State)
    requires InStep(k, intrinsic, ip, m, s)
    ensures 0 <= ip < |k.env.p.code|
  {
  }

  /** Whatever the instruction that writes a number is, both write it. */
  lemma NumberWrites(k: Kernel, intrinsic: nat -> Option<nat>, ip: int, m: Machine, s: State) returns (v: Value)
    requires InStep(k, intrinsic, ip, m, s) && BuffersStay(k, s.heap) && CallsHold(k)
    requires k.BodyStep(ip, m, s.heap).Goto? && Writes(k.env.p.code[ip]).Some?
    ensures BothWrite(k, ip, m, s, Writes(k.env.p.code[ip]).value, v)
  {
    hide Accepted, Sim, Loop.Visited, BuffersStay, CallsHold, Kernel.BodyStep, BothWrite;
    IndexOf(k, intrinsic, ip, m, s);
    match k.env.p.code[ip] {
      case Move(_, _) => v := MoveWrites(k, intrinsic, ip, m, s);
      case LoadConstant(_, _) => v := LoadConstantWrites(k, intrinsic, ip, m, s);
      case Arith(_, _, _, _) => v := ArithWrites(k, intrinsic, ip, m, s);
      case DivMod(_, _, _, _) => v := DivModWrites(k, intrinsic, ip, m, s);
      case UnaryMinus(_, _) => v := UnaryMinusWrites(k, intrinsic, ip, m, s);
      case Call(_, _, _) => v := CallWrites(k, intrinsic, ip, m, s);
      case GetTable(_, _, _) => v := GetTableWrites(k, intrinsic, ip, m, s);
    }
  }

  /** The body's code, to the FORLOOP or a side exit, is a run of the
      interpreter. */
  lemma {:induction false} BodySimulates(k: Kernel, intrinsic: nat -> Option<nat>, ip: int, m: Machine, s: State)
    returns (n: nat, s': State)
    requires Accepted(k, intrinsic) && k.plan.b.start <= ip <= k.plan.b.latch && k.plan.b.Visited(ip)
    requires Sim(k, ip, m, s) && BuffersStay(k, s.heap) && CallsHold(k)
    ensures n == k.BodySteps(ip, m, s.heap) && Run(k.env, s, n) == Some(s') && BuffersStay(k, s'.heap)
    ensures match k.RunBody(ip, m, s.heap)
      case AtLatch(m', heap') => s'.heap == heap' && Sim(k, k.plan.b.latch, m', s')
      case SideAt(ip', m', heap') =>
        && s'.heap == heap' && k.plan.b.start <= ip' < k.plan.b.latch && k.plan.b.Visited(ip')
        && Sim(k, ip', m', s') && k.BodyStep(ip', m', heap').Leave?
    decreases k.plan.b.latch - ip
  {
    hide Loop.Visited, Scanned, Planned, Sim, Loop.CallFrom, Loop.KernelJump, BuffersStay, Kernel.BodyStep, Step, CallsHold;
    if ip == k.plan.b.latch || k.BodyStep(ip, m, s.heap).Leave? {
      n, s' := 0, s;
    } else {
      var s1 := CodeStepSimulates(k, intrinsic, ip, m, s);
      var out := k.BodyStep(ip, m, s.heap);
      var n1: nat;
      n1, s' := BodySimulates(k, intrinsic, out.pc, out.m, s1);
      n := n1 + 1;
    }
  }

  /** Types are sound at every pc that the code reaches on the way, not only at
      the body's ends: there each typed register, but a pending function, holds a
      number of that type, in its machine register and in the interpreter alike,
      and the interpreter is there after as many steps. */
  lemma {:induction false} TypesSoundAlong(k: Kernel, intrinsic: nat -> Option<nat>, ip: int, m: Machine, s: State, n: nat)
    returns (s': State)
    requires Accepted(k, intrinsic) && k.plan.b.start <= ip <= k.plan.b.latch && k.plan.b.Visited(ip)
    requires Sim(k, ip, m, s) && BuffersStay(k, s.heap) && CallsHold(k)
    requires k.AfterCode(ip, m, s.heap, n).Some?
    ensures
      var (ip', m', heap') := k.AfterCode(ip, m, s.heap, n).value;
      && k.plan.b.start <= ip' <= k.plan.b.latch && k.plan.b.Visited(ip')
      && Run(k.env, s, n) == Some(s') && s'.pc == ip' && s'.heap == heap'
      && Sim(k, ip', m', s') && TypedAt(k, ip', m', s'.frame)
    decreases n
  {
    hide Loop.Visited, Scanned, Planned, Sim, Loop.CallFrom, Loop.KernelJump, BuffersStay, Kernel.BodyStep, Step, CallsHold, TypedAt;
    if n == 0 {
      s' := s;
      PcIs(k, ip, m, s);
      SimTyped(k, ip, m, s);
    } else {
      var s1 := CodeStepSimulates(k, intrinsic, ip, m, s);
      var out := k.BodyStep(ip, m, s.heap);
      s' := TypesSoundAlong(k, intrinsic, out.pc, out.m, s1, n - 1);
    }
  }

  /** Every typed register fits its type, in the interpreter and the kernel. */
  ghost predicate TypedAt(k: Kernel, ip: int, m: Machine, frame: Frame)
    requires k.Valid() && k.plan.b.start <= ip <= k.plan.b.latch
  {
    forall r :: r in k.At(ip) && !Pending(k.plan.b, r, ip) ==>
      Fits(k.At(ip)[r], Get(frame, r)) && Holds(k, m, r, k.At(ip)[r], Get(frame, r))
  }

  lemma SimTyped(k: Kernel, ip: int, m: Machine, s: State)
    requires k.Valid() && k.plan.b.start <= ip <= k.plan.b.latch && Sim(k, ip, m, s)
    ensures TypedAt(k, ip, m, s.frame)
  {
    hide Pending;
  }

  // ---------- FORLOOP ----------

  /** The registers that an iteration starts from, but the one FORLOOP sets,
      are in their machine registers. */
  ghost predicate Loaded(k: Kernel, m: Machine, frame: Frame)
    requires k.Valid()
  {
    && (forall r :: r in k.plan.types && r != k.plan.Base() + 3 ==> Holds(k, m, r, k.plan.types[r], Get(frame, r)))
    && (forall r :: r !in k.plan.found.written ==> Get(frame, r) == Get(k.frame, r))
  }

  /** So they are at the end of an iteration. */
  lemma LoadedAtLatch(k: Kernel, intrinsic: nat -> Option<nat>, m: Machine, s: State)
    requires Accepted(k, intrinsic) && Sim(k, k.plan.b.latch, m, s)
    ensures Loaded(k, m, s.frame)
  {
    hide Loop.Visited, Loop.CallFrom, Loop.KernelJump, Scanned, Holds, Pending, Flow.From, AllRun, Slotted;
    var latch := k.plan.b.latch;
    AcceptedFlow(k, intrinsic);
    assert k.plan.flow.At(k.plan.b, latch) == k.At(latch);
    forall r | r in k.plan.types
      ensures Holds(k, m, r, k.plan.types[r], Get(s.frame, r))
    {
      if r in k.plan.found.written {
        assert r !in Undecided(k.plan.types);
        assert TypeOf(k.At(latch), r) == k.plan.types[r];
        NothingPending(k.plan.b, r);
      }
    }
  }

  lemma NothingPending(b: Loop, r: nat)
    requires b.Valid()
    ensures !Pending(b, r, b.latch) && !Pending(b, r, b.start)
  {
    if Pending(b, r, b.latch) {
      var u :| PendingAt(b, u, r, b.latch);
      PendingSpan(b, u, r, b.latch);
    }
  }

  /** The entry check's registers, loaded, are. */
  lemma {:induction false} LoadedOnEntry(k: Kernel, intrinsic: nat -> Option<nat>, heap: Heap, n: nat)
    requires Accepted(k, intrinsic) && Enters(k, heap) && n <= |k.plan.found.liveIn|
    ensures forall i :: 0 <= i < n ==>
      var r := k.plan.found.liveIn[i]; Holds(k, k.Load(n), r, k.plan.types[r], Get(k.frame, r))
    decreases n
  {
    hide Loop.Visited, Loop.CallFrom, Loop.KernelJump, Scanned, Flow.From, AllRun, EndsAsItStarts, Holds, ResultSlots, SetReg;
    if n > 0 {
      LoadedOnEntry(k, intrinsic, heap, n - 1);
      var r0 := k.plan.found.liveIn[n - 1];
      assert r0 in k.plan.found.liveIn;
      var v := Get(k.frame, r0);
      LoadStep(k, n);
      SetHolds(k, k.Load(n - 1), r0, k.plan.types[r0], v);
      forall i | 0 <= i < n
        ensures var r := k.plan.found.liveIn[i]; Holds(k, k.Load(n), r, k.plan.types[r], Get(k.frame, r))
      {
        var r := k.plan.found.liveIn[i];
        if r != r0 {
          SetKeeps(k, k.Load(n - 1), r0, v, r, k.plan.types[r], Get(k.frame, r));
        }
      }
    }
  }

  lemma LoadStep(k: Kernel, n: nat)
    requires 0 < n <= |k.plan.found.liveIn| && Get(k.frame, k.plan.found.liveIn[n - 1]).Number?()
    ensures k.Load(n) == SetReg(k, k.Load(n - 1), k.plan.found.liveIn[n - 1], Get(k.frame, k.plan.found.liveIn[n - 1]))
  {
  }

  lemma EntryLoaded(k: Kernel, intrinsic: nat -> Option<nat>, heap: Heap)
    requires Accepted(k, intrinsic) && Enters(k, heap)
    ensures Loaded(k, k.Load(|k.plan.found.liveIn|), k.frame)
  {
    hide Loop.Visited, Loop.CallFrom, Loop.KernelJump, Flow.From, AllRun, EndsAsItStarts, Holds, Slotted, Accounted, CallsFed, Kernel.Load;
    var liveIn := k.plan.found.liveIn;
    LoadedOnEntry(k, intrinsic, heap, |liveIn|);
    forall r | r in k.plan.types && r != k.plan.Base() + 3
      ensures Holds(k, k.Load(|liveIn|), r, k.plan.types[r], Get(k.frame, r))
    {
      assert r in liveIn;
      var i :| 0 <= i < |liveIn| && liveIn[i] == r;
    }
  }

  /** The loop's own registers, in both. */
  lemma LoopRegisters(k: Kernel, intrinsic: nat -> Option<nat>, m: Machine, frame: Frame)
    requires Accepted(k, intrinsic) && Loaded(k, m, frame)
    ensures var base := k.plan.Base();
      if k.plan.intLoop then
        && Get(frame, base) == Int(k.IntReg(m, base)) && Get(frame, base + 1) == Int(k.IntReg(m, base + 1))
        && Get(frame, base + 2) == Int(k.IntReg(m, base + 2))
      else
        && Get(frame, base) == Flt(k.FloatReg(m, base)) && Get(frame, base + 1) == Flt(k.FloatReg(m, base + 1))
        && Get(frame, base + 2) == Flt(k.FloatReg(m, base + 2))
    ensures forall r :: r in LoopWrites(k.plan.Base(), k.plan.intLoop) ==> r in k.plan.found.written
    ensures forall r :: LoopRegister(k.plan.Base(), r) ==> r in k.plan.types && KSlot(r, k.plan.types[r]) in k.plan.slots
    ensures forall r :: LoopRegister(k.plan.Base(), r) ==> k.plan.types[r] == if k.plan.intLoop then IntKind else FloatKind
  {
    hide Loop.Visited, Loop.CallFrom, Loop.KernelJump, Flow.From, AllRun, EndsAsItStarts, Accounted, CallsFed, SurelyWritten;
    var base := k.plan.Base();
    assert LoopRegister(base, base) && LoopRegister(base, base + 1) && LoopRegister(base, base + 2);
  }

  /** Where the loop ends, both go past the FORLOOP. */
  lemma LoopEnds(k: Kernel, intrinsic: nat -> Option<nat>, m: Machine, s: State)
    requires Accepted(k, intrinsic) && Loaded(k, m, s.frame) && s.pc == k.plan.b.latch && k.LoopStep(m).None?
    ensures Step(k.env, s) == Some(s.(pc := k.plan.b.latch + 1))
  {
    hide Scanned, Planned, Loaded;
    LoopRegisters(k, intrinsic, m, s.frame);
  }

  /** FORLOOP in the interpreter, when the kernel goes on. */
  ghost function Advanced(k: Kernel, m: Machine, frame: Frame): Frame
    requires k.Valid()
  {
    var base := k.plan.Base();
    if k.plan.intLoop then
      var index := Int(Wrap(k.IntReg(m, base) + k.IntReg(m, base + 2)));
      frame[base + 1 := Int(Wrap(k.IntReg(m, base + 1) - 1))][base := index][base + 3 := index]
    else
      var index := Flt(k.env.ops.add(k.FloatReg(m, base), k.FloatReg(m, base + 2)));
      frame[base := index][base + 3 := index]
  }

  lemma LoopGoesOn(k: Kernel, intrinsic: nat -> Option<nat>, m: Machine, s: State)
    requires Accepted(k, intrinsic) && Loaded(k, m, s.frame) && s.pc == k.plan.b.latch && k.LoopStep(m).Some?
    requires k.plan.b.latch + 1 + k.env.p.code[k.plan.b.latch].sbx == k.plan.b.start
    ensures Step(k.env, s) == Some(State(k.plan.b.start, Advanced(k, m, s.frame), s.heap))
  {
    hide Scanned, Planned, Loaded;
    LoopRegisters(k, intrinsic, m, s.frame);
    if k.plan.intLoop {
      CountDown(k.IntReg(m, k.plan.Base() + 1));
    }
  }

  /** Counting down a uint64 in an int64 register. */
  lemma CountDown(count: int64)
    requires count != 0
    ensures ToUint(count) > 0 && Wrap(ToUint(count) - 1) == Wrap(count - 1)
  {
    if count < 0 {
      assert ToUint(count) == count + TWO64;
      WrapCongruent(count - 1, 1);
    }
  }

  /** One of the loop's registers set, in both. */
  lemma SetBoth(k: Kernel, m: Machine, frame: Frame, a: nat, v: Value, unset: set<nat>)
    requires k.Valid() && Separate(k.plan.slots) && a in k.plan.types && KSlot(a, k.plan.types[a]) in k.plan.slots
    requires Fits(k.plan.types[a], v)
    requires forall r :: r in k.plan.types && r !in unset ==> Holds(k, m, r, k.plan.types[r], Get(frame, r))
    ensures forall r :: r in k.plan.types && r !in unset - {a} ==>
      Holds(k, SetReg(k, m, a, v), r, k.plan.types[r], Get(frame[a := v], r))
  {
    hide Holds, SetReg, Separate;
    forall r | r in k.plan.types && r !in unset - {a}
      ensures Holds(k, SetReg(k, m, a, v), r, k.plan.types[r], Get(frame[a := v], r))
    {
      if r == a {
        SetHolds(k, m, a, k.plan.types[a], v);
      } else {
        SetKeeps(k, m, a, v, r, k.plan.types[r], Get(frame, r));
      }
    }
  }

  /** After FORLOOP, every register of an iteration is in its machine
      register, and the frame's others are untouched. */
  lemma AdvancedLoaded(k: Kernel, intrinsic: nat -> Option<nat>, m: Machine, frame: Frame)
    requires Accepted(k, intrinsic) && Loaded(k, m, frame) && k.LoopStep(m).Some?
    ensures forall r :: r in k.plan.types ==>
      Holds(k, k.LoopStep(m).value, r, k.plan.types[r], Get(Advanced(k, m, frame), r))
    ensures forall r :: r !in k.plan.found.written ==> Get(Advanced(k, m, frame), r) == Get(k.frame, r)
  {
    hide Scanned, Planned, Holds, Separate, Wrap, Kernel.LoopStep;
    LoopRegisters(k, intrinsic, m, frame);
    SlotsSeparate(k, intrinsic);
    if k.plan.intLoop {
      IntLoaded(k, m, frame);
    } else {
      FloatLoaded(k, m, frame);
    }
    forall r | r !in k.plan.found.written
      ensures Get(Advanced(k, m, frame), r) == Get(k.frame, r)
    {
      assert r !in LoopWrites(k.plan.Base(), k.plan.intLoop);
    }
  }

  lemma IntLoaded(k: Kernel, m: Machine, frame: Frame)
    requires k.Valid() && k.plan.intLoop && Loaded(k, m, frame) && k.LoopStep(m).Some? && Separate(k.plan.slots)
    requires forall r :: LoopRegister(k.plan.Base(), r) ==>
      r in k.plan.types && KSlot(r, k.plan.types[r]) in k.plan.slots && k.plan.types[r] == IntKind
    ensures forall r :: r in k.plan.types ==>
      Holds(k, k.LoopStep(m).value, r, k.plan.types[r], Get(Advanced(k, m, frame), r))
  {
    hide Holds, Separate, Wrap, SetReg, Kernel.LoopStep;
    var base := k.plan.Base();
    var index := Int(Wrap(k.IntReg(m, base) + k.IntReg(m, base + 2)));
    var count := Int(Wrap(k.IntReg(m, base + 1) - 1));
    var m1, f1 := SetReg(k, m, base + 1, count), frame[base + 1 := count];
    var m2, f2 := SetReg(k, m1, base, index), f1[base := index];
    SetBoth(k, m, frame, base + 1, count, {base + 3});
    SetBoth(k, m1, f1, base, index, {base + 3});
    SetBoth(k, m2, f2, base + 3, index, {base + 3});
    StepIsSets(k, m);
  }

  lemma FloatLoaded(k: Kernel, m: Machine, frame: Frame)
    requires k.Valid() && !k.plan.intLoop && Loaded(k, m, frame) && k.LoopStep(m).Some? && Separate(k.plan.slots)
    requires forall r :: LoopRegister(k.plan.Base(), r) ==>
      r in k.plan.types && KSlot(r, k.plan.types[r]) in k.plan.slots && k.plan.types[r] == FloatKind
    ensures forall r :: r in k.plan.types ==>
      Holds(k, k.LoopStep(m).value, r, k.plan.types[r], Get(Advanced(k, m, frame), r))
  {
    hide Holds, Separate, SetReg, Kernel.LoopStep;
    var base := k.plan.Base();
    var index := Flt(k.env.ops.add(k.FloatReg(m, base), k.FloatReg(m, base + 2)));
    var m1, f1 := SetReg(k, m, base, index), frame[base := index];
    SetBoth(k, m, frame, base, index, {base + 3});
    SetBoth(k, m1, f1, base + 3, index, {base + 3});
    StepIsSets(k, m);
  }

  /** So an iteration starts in step. */
  lemma StartSim(k: Kernel, intrinsic: nat -> Option<nat>, m: Machine, s: State)
    requires Accepted(k, intrinsic) && Loaded(k, m, s.frame) && k.LoopStep(m).Some?
    ensures Sim(k, k.plan.b.start, k.LoopStep(m).value, State(k.plan.b.start, Advanced(k, m, s.frame), s.heap))
  {
    hide Loop.Visited, Loop.CallFrom, Loop.KernelJump, Scanned, Planned, Holds, Kernel.LoopStep, Advanced, Pending;
    AdvancedLoaded(k, intrinsic, m, s.frame);
    EntryDecided(k, intrinsic);
  }

  // ---------- Whole runs ----------

  /** After the code e leaves, its frame has what the interpreter's has in the
      registers typed there and in those the loop never writes. */
  ghost predicate FlushedAt(k: Kernel, ip: int, flushed: Frame, frame: Frame)
    requires k.Valid() && k.plan.b.start <= ip <= k.plan.b.latch
  {
    forall r :: r !in k.plan.found.written || r in k.At(ip) ==> Get(flushed, r) == Get(frame, r)
  }

  /** Flushing at the FORLOOP. */
  lemma FlushLoop(k: Kernel, intrinsic: nat -> Option<nat>, m: Machine, frame: Frame)
    requires Accepted(k, intrinsic)
    requires forall r :: r in k.At(k.plan.b.latch) && r in k.plan.found.written ==>
      Holds(k, m, r, k.At(k.plan.b.latch)[r], Get(frame, r))
    requires forall r :: r !in k.plan.found.written ==> Get(frame, r) == Get(k.frame, r)
    ensures FlushedAt(k, k.plan.b.latch, k.Flush(k.At(k.plan.b.latch), m), frame)
  {
    hide Scanned, Planned, Loop.Visited, Loop.KernelJump, Loop.CallFrom;
  }

  /** Flushing after FORLOOP has gone on: its registers have the entry types at
      the latch, and the other typed ones are unchanged. */
  lemma FlushAdvanced(k: Kernel, intrinsic: nat -> Option<nat>, m: Machine, s: State)
    requires Accepted(k, intrinsic) && Sim(k, k.plan.b.latch, m, s) && k.LoopStep(m).Some?
    ensures FlushedAt(k, k.plan.b.latch, k.Flush(k.At(k.plan.b.latch), k.LoopStep(m).value), Advanced(k, m, s.frame))
  {
    hide Scanned, Planned, Loop.Visited, Loop.KernelJump, Loop.CallFrom, Holds, Pending, FlushedAt, Kernel.Flush;
    var latch := k.plan.b.latch;
    LoadedAtLatch(k, intrinsic, m, s);
    AdvancedLoaded(k, intrinsic, m, s.frame);
    forall r | r in k.At(latch) && r in k.plan.found.written
      ensures Holds(k, k.LoopStep(m).value, r, k.At(latch)[r], Get(Advanced(k, m, s.frame), r))
    {
      NothingPending(k.plan.b, r);
      AdvancedKeeps(k, intrinsic, m, s.frame, r);
    }
    FlushLoop(k, intrinsic, k.LoopStep(m).value, Advanced(k, m, s.frame));
  }

  lemma AdvancedKeeps(k: Kernel, intrinsic: nat -> Option<nat>, m: Machine, frame: Frame, r: nat)
    requires Accepted(k, intrinsic) && Loaded(k, m, frame) && k.LoopStep(m).Some?
    requires r in k.plan.found.written && r in k.At(k.plan.b.latch)
    requires Holds(k, m, r, k.At(k.plan.b.latch)[r], Get(frame, r))
    requires r in k.plan.types ==>
      Holds(k, k.LoopStep(m).value, r, k.plan.types[r], Get(Advanced(k, m, frame), r))
    ensures Holds(k, k.LoopStep(m).value, r, k.At(k.plan.b.latch)[r], Get(Advanced(k, m, frame), r))
  {
    hide Scanned, Loop.Visited, Loop.KernelJump, Loop.CallFrom, Holds, Flow.From, AllRun, Slotted, Separate, Kernel.LoopStep, Advanced;
    AcceptedFlow(k, intrinsic);
    if r in k.plan.types {
      assert TypeOf(k.plan.flow.At(k.plan.b, k.plan.b.latch), r) == k.plan.types[r];
    } else {
      SlotsSeparate(k, intrinsic);
      LoopRegisters(k, intrinsic, m, frame);
      OtherKept(k, m, frame, r, k.At(k.plan.b.latch)[r]);
    }
  }

  /** FORLOOP keeps the registers that are not its own. */
  lemma OtherKept(k: Kernel, m: Machine, frame: Frame, r: nat, t: Kind)
    requires k.Valid() && k.LoopStep(m).Some? && Separate(k.plan.slots)
    requires !LoopRegister(k.plan.Base(), r) && Holds(k, m, r, t, Get(frame, r))
    ensures Holds(k, k.LoopStep(m).value, r, t, Get(Advanced(k, m, frame), r))
  {
    hide Holds, Separate, SetReg, Wrap, Kernel.LoopStep;
    var base, v := k.plan.Base(), Get(frame, r);
    StepIsSets(k, m);
    if k.plan.intLoop {
      var index := Int(Wrap(k.IntReg(m, base) + k.IntReg(m, base + 2)));
      KeepsThree(k, m, base + 1, Int(Wrap(k.IntReg(m, base + 1) - 1)), base, index, base + 3, index, r, t, v);
    } else {
      var index := Flt(k.env.ops.add(k.FloatReg(m, base), k.FloatReg(m, base + 2)));
      KeepsThree(k, m, base, index, base + 3, index, base + 3, index, r, t, v);
    }
  }

  lemma KeepsThree(k: Kernel, m: Machine, a: nat, x: Value, b: nat, y: Value, c: nat, z: Value, r: nat, t: Kind, v: Value)
    requires Separate(k.plan.slots) && x.Number?() && y.Number?() && z.Number?()
    requires r != a && r != b && r != c && Holds(k, m, r, t, v)
    ensures Holds(k, SetReg(k, SetReg(k, m, a, x), b, y), r, t, v)
    ensures Holds(k, SetReg(k, SetReg(k, SetReg(k, m, a, x), b, y), c, z), r, t, v)
  {
    hide Separate, Holds, SetReg;
    SetKeeps(k, m, a, x, r, t, v);
    SetKeeps(k, SetReg(k, m, a, x), b, y, r, t, v);
    SetKeeps(k, SetReg(k, SetReg(k, m, a, x), b, y), c, z, r, t, v);
  }

  lemma StepIsSets(k: Kernel, m: Machine)
    requires k.Valid() && k.LoopStep(m).Some?
    ensures var base := k.plan.Base();
      if k.plan.intLoop then
        var index := Int(Wrap(k.IntReg(m, base) + k.IntReg(m, base + 2)));
        k.LoopStep(m).value ==
          SetReg(k, SetReg(k, SetReg(k, m, base + 1, Int(Wrap(k.IntReg(m, base + 1) - 1))), base, index), base + 3, index)
      else
        var index := Flt(k.env.ops.add(k.FloatReg(m, base), k.FloatReg(m, base + 2)));
        k.LoopStep(m).value == SetReg(k, SetReg(k, m, base, index), base + 3, index)
  {
    hide Wrap;
  }

  /** Flushing at a side exit, with the function of an intrinsic's CALL back in
      its register. */
  lemma FlushSide(k: Kernel, intrinsic: nat -> Option<nat>, ip: int, m: Machine, s: State)
    requires InStep(k, intrinsic, ip, m, s)
    ensures FlushedAt(k, ip, k.SideFlush(ip, m), s.frame) || !k.BodyStep(ip, m, s.heap).Leave?
  {
    hide Scanned, Planned, Loop.Visited, Loop.KernelJump, Loop.CallFrom, Sim;
    var b := k.plan.b;
    var i := k.env.p.code[ip];
    Decided(k, intrinsic, ip);
    if i.Call? {
      FunctionLoaded(k, intrinsic, ip, m, s);
      forall r | r != i.a ensures !Pending(b, r, ip) { NonePending(b, r, ip); }
      FlushSpares(k, ip, m, s, i.a);
    } else if k.BodyStep(ip, m, s.heap).Leave? {
      ScannedAt(k, intrinsic, ip);
      LeavesFromTables(k, intrinsic, ip, m, s.heap);
      forall r ensures !Pending(b, r, ip) { NonePending(b, r, ip); }
      FlushAll(k, ip, m, s);
    }
  }

  /** The body's code only leaves at a buffer access or a CALL. */
  lemma LeavesFromTables(k: Kernel, intrinsic: nat -> Option<nat>, ip: int, m: Machine, heap: Heap)
    requires k.Valid() && k.plan.b.start <= ip < k.plan.b.latch && k.BodyStep(ip, m, heap).Leave?
    requires Accounted(k.plan.b, intrinsic, k.plan.found, ip)
    ensures var i := k.env.p.code[ip]; i.Call? || i.GetTable? || i.SetTable?
  {
    hide DivideByConstant, DivideInstruction, Loop.CallFrom;
  }

  lemma NonePending(b: Loop, r: nat, ip: int)
    requires b.Valid() && b.start <= ip < b.latch
    requires b.p.code[ip].GetTable? || b.p.code[ip].SetTable? || (b.p.code[ip].Call? && b.p.code[ip].a != r)
    ensures !Pending(b, r, ip)
  {
    if Pending(b, r, ip) {
      var u :| PendingAt(b, u, r, ip);
      PendingSpan(b, u, r, ip);
    }
  }

  lemma FlushAll(k: Kernel, ip: int, m: Machine, s: State)
    requires k.Valid() && k.plan.b.start <= ip < k.plan.b.latch && Sim(k, ip, m, s) && DecidedAt(k, ip)
    requires !k.env.p.code[ip].Call? && forall r :: !Pending(k.plan.b, r, ip)
    ensures FlushedAt(k, ip, k.SideFlush(ip, m), s.frame)
  {
    hide Pending;
  }

  lemma FlushSpares(k: Kernel, ip: int, m: Machine, s: State, a: nat)
    requires k.Valid() && k.plan.b.start <= ip < k.plan.b.latch && Sim(k, ip, m, s) && DecidedAt(k, ip)
    requires k.env.p.code[ip].Call? && a == k.env.p.code[ip].a && ip in k.plan.found.calls
    requires Get(s.frame, a) == UpValue(k.env, k.plan.found.calls[ip].n)
    requires forall r :: r != a ==> !Pending(k.plan.b, r, ip)
    ensures FlushedAt(k, ip, k.SideFlush(ip, m), s.frame)
  {
    hide Pending;
  }

  /** Exit e of the kernel and state s of the interpreter agree: on the pc and
      the buffers, and on every register that is typed there or that the loop
      never writes. */
  ghost predicate Agree(k: Kernel, e: Exit, s: State)
    requires k.Valid()
  {
    match e
    case LoopEnd(frame, heap) =>
      s.pc == k.plan.b.latch + 1 && s.heap == heap && FlushedAt(k, k.plan.b.latch, frame, s.frame)
    case BudgetExit(frame, heap) =>
      s.pc == k.plan.b.start && s.heap == heap && FlushedAt(k, k.plan.b.latch, frame, s.frame)
    case SideExit(ip, frame, heap) =>
      && k.plan.b.start <= ip < k.plan.b.latch && k.plan.b.Visited(ip)
      && s.pc == ip && s.heap == heap && FlushedAt(k, ip, frame, s.frame)
      && (var i := k.env.p.code[ip]; i.Call? || i.GetTable? || i.SetTable?)
    case Stuck => false
  }

  /** Any number of iterations, however they end. */
  lemma {:induction false} IterateSimulates(k: Kernel, intrinsic: nat -> Option<nat>, m: Machine, s: State, budget: nat)
    returns (n: nat, s': State)
    requires Accepted(k, intrinsic) && Sim(k, k.plan.b.start, m, s) && BuffersStay(k, s.heap) && CallsHold(k)
    requires k.plan.b.latch + 1 + k.env.p.code[k.plan.b.latch].sbx == k.plan.b.start
    ensures n == k.IterateSteps(m, s.heap, budget)
    ensures Bytecode.Run(k.env, s, n) == Some(s') && Agree(k, k.Iterate(m, s.heap, budget), s')
    decreases budget
  {
    hide Scanned, Planned, Loop.Visited, Loop.KernelJump, Loop.CallFrom, Sim, BuffersStay, CallsHold, Kernel.BodyStep,
         Kernel.RunBody, Kernel.BodySteps, Kernel.LoopStep, Kernel.Flush, Kernel.SideFlush, FlushedAt, Step;
    var b := k.plan.b;
    b.StartVisited();
    n, s' := BodySimulates(k, intrinsic, b.start, m, s);
    match k.RunBody(b.start, m, s.heap) {
      case SideAt(ip, m1, heap1) =>
        PcIs(k, ip, m1, s');
        FlushSide(k, intrinsic, ip, m1, s');
        ScannedAt(k, intrinsic, ip);
        LeavesFromTables(k, intrinsic, ip, m1, heap1);
      case AtLatch(m1, heap1) =>
        PcIs(k, b.latch, m1, s');
        LoadedAtLatch(k, intrinsic, m1, s');
        var s1, n1 := s', n;
        if k.LoopStep(m1).None? {
          LoopEnds(k, intrinsic, m1, s1);
          FlushEnd(k, intrinsic, m1, s1);
          s' := s1.(pc := b.latch + 1);
          OneMore(k.env, s, n1, s1, s');
          n := n1 + 1;
        } else {
          LoopGoesOn(k, intrinsic, m1, s1);
          s' := State(b.start, Advanced(k, m1, s1.frame), s1.heap);
          OneMore(k.env, s, n1, s1, s');
          n := n1 + 1;
          if budget <= 1 {
            FlushAdvanced(k, intrinsic, m1, s1);
          } else {
            StartSim(k, intrinsic, m1, s1);
            var s2, n2 := s', n;
            n, s' := IterateSimulates(k, intrinsic, k.LoopStep(m1).value, s2, budget - 1);
            RunCompose(k.env, s, n2, s2, n);
            n := n2 + n;
          }
        }
    }
  }

  lemma OneMore(env: Env, s: State, n: nat, s1: State, s2: State)
    requires Bytecode.Run(env, s, n) == Some(s1) && Step(env, s1) == Some(s2)
    ensures Bytecode.Run(env, s, n + 1) == Some(s2)
  {
    hide Step;
    RunCompose(env, s, n, s1, 1);
    assert Bytecode.Run(env, s1, 1) == Bytecode.Run(env, s2, 0);
  }

  lemma FlushEnd(k: Kernel, intrinsic: nat -> Option<nat>, m: Machine, s: State)
    requires Accepted(k, intrinsic) && Sim(k, k.plan.b.latch, m, s)
    ensures FlushedAt(k, k.plan.b.latch, k.Flush(k.At(k.plan.b.latch), m), s.frame)
  {
    hide Scanned, Planned, Loop.Visited, Loop.KernelJump, Loop.CallFrom, Holds, Pending, FlushedAt, Kernel.Flush;
    forall r | r in k.At(k.plan.b.latch)
      ensures Holds(k, m, r, k.At(k.plan.b.latch)[r], Get(s.frame, r))
    {
      NothingPending(k.plan.b, r);
    }
    FlushLoop(k, intrinsic, m, s.frame);
  }

  /** The main result: whatever loop the planner accepts, whatever frame passes
      the entry check and whatever the budget, the interpreter, run from the
      FORLOOP, reaches a state that agrees with the kernel's exit. */
  lemma KernelSimulates(k: Kernel, intrinsic: nat -> Option<nat>, heap: Heap, budget: nat) returns (n: nat, s': State)
    requires Accepted(k, intrinsic) && Enters(k, heap)
    requires k.plan.b.latch + 1 + k.env.p.code[k.plan.b.latch].sbx == k.plan.b.start
    ensures n == k.Steps(heap, budget) && Bytecode.Run(k.env, State(k.plan.b.latch, k.frame, heap), n) == Some(s')
    ensures Agree(k, k.Run(heap, budget), s')
  {
    hide Scanned, Planned, Loop.Visited, Loop.KernelJump, Loop.CallFrom, Sim, Kernel.BodyStep,
         Kernel.RunBody, Kernel.LoopStep, Kernel.Load, Kernel.Iterate, Kernel.IterateSteps, Step, Loaded;
    var m, s := k.Load(|k.plan.found.liveIn|), State(k.plan.b.latch, k.frame, heap);
    EntryLoaded(k, intrinsic, heap);
    if k.LoopStep(m).None? {
      LoopEnds(k, intrinsic, m, s);
      n, s' := 1, s.(pc := k.plan.b.latch + 1);
      OneMore(k.env, s, 0, s, s');
    } else {
      LoopGoesOn(k, intrinsic, m, s);
      StartSim(k, intrinsic, m, s);
      var s1 := State(k.plan.b.start, Advanced(k, m, k.frame), heap);
      n, s' := IterateSimulates(k, intrinsic, k.LoopStep(m).value, s1, budget);
      OneMore(k.env, s, 0, s, s1);
      RunCompose(k.env, s, 1, s1, n);
      n := n + 1;
    }
  }

  // ---------- Bodies without dead code ----------

  /** Every pc of the body can be reached. */
  ghost predicate NoDeadCode(b: Loop)
    requires b.Valid()
  {
    forall ip :: b.start < ip <= b.latch && b.Visited(ip) ==> exists j :: b.Edge(j, ip)
  }

  /** Then the registers typed on entry are typed at every pc. */
  lemma {:induction false} EntryTypesStay(k: Kernel, intrinsic: nat -> Option<nat>, ip: int, r: nat)
    requires Accepted(k, intrinsic) && NoDeadCode(k.plan.b) && r in k.plan.types
    requires k.plan.b.start <= ip <= k.plan.b.latch && k.plan.b.Visited(ip)
    ensures r in k.At(ip)
    decreases ip
  {
    hide *;
    ValidKernel(k, intrinsic);
    var b := k.plan.b;
    if ip == b.start {
      EntryDecided(k, intrinsic);
    } else {
      forall j | b.Edge(j, ip)
        ensures b.start <= j < b.latch && (r in k.At(j) || SureToWrite(k, j, r))
      {
        EdgeBack(b, j, ip);
        EntryTypesStay(k, intrinsic, j, r);
      }
      TypedEverywhere(k, intrinsic, ip, r);
    }
  }

  ghost predicate SureToWrite(k: Kernel, j: int, r: nat)
    requires 0 <= j < |k.env.p.code|
  {
    Writes(k.env.p.code[j]) == Some(r)
  }

  /** A register that every way to ip types is typed there. */
  lemma TypedEverywhere(k: Kernel, intrinsic: nat -> Option<nat>, ip: int, r: nat)
    requires Accepted(k, intrinsic) && NoDeadCode(k.plan.b)
    requires k.plan.b.start < ip <= k.plan.b.latch && k.plan.b.Visited(ip)
    requires forall j :: k.plan.b.Edge(j, ip) ==> k.plan.b.start <= j < k.plan.b.latch && (r in k.At(j) || SureToWrite(k, j, r))
    ensures r in k.At(ip)
  {
    hide *;
    ValidKernel(k, intrinsic);
    var b := k.plan.b;
    MergedAt(k, intrinsic, ip);
    forall j | b.Edge(j, ip)
      ensures b.start <= j < b.latch && r in k.plan.flow.Out(b, j)
    {
      EdgeBack(b, j, ip);
      OutHas(k, intrinsic, j, r);
    }
    ReachedEverywhere(b, k.plan.flow, ip, r);
  }

  lemma OutHas(k: Kernel, intrinsic: nat -> Option<nat>, j: int, r: nat)
    requires Accepted(k, intrinsic) && k.plan.b.start <= j < k.plan.b.latch && k.plan.b.Visited(j)
    requires r in k.At(j) || SureToWrite(k, j, r)
    ensures k.plan.flow.Fits(k.plan.b) && r in k.plan.flow.Out(k.plan.b, j)
  {
    hide Scanned, Planned, Loop.Visited, Loop.KernelJump, Loop.CallFrom, Loop.Edge, Result;
    AcceptedFlow(k, intrinsic);
    if SureToWrite(k, j, r) {
      WritesDecided(k, intrinsic, j);
    }
  }

  lemma ReachedEverywhere(b: Loop, flow: Flow, ip: int, r: nat)
    requires flow.Fits(b) && NoDeadCode(b) && b.start < ip <= b.latch && b.Visited(ip) && flow.Merged(b, ip)
    requires forall j :: b.Edge(j, ip) ==> r in flow.Out(b, j)
    ensures r in flow.At(b, ip)
  {
    hide Loop.Visited, Loop.Edge, Flow.Out;
    assert flow.Everywhere(b, ip, r);
  }

  /** And so are those written at an earlier pc that nothing skips. */
  lemma {:induction false} WrittenTypesStay(k: Kernel, intrinsic: nat -> Option<nat>, w: int, ip: int, r: nat)
    requires Accepted(k, intrinsic) && NoDeadCode(k.plan.b)
    requires k.plan.b.start <= w < ip <= k.plan.b.latch && k.plan.b.Visited(w) && k.plan.b.Visited(ip)
    requires WritesUnskipped(k.plan.b, r, w)
    ensures r in k.At(ip)
    decreases ip
  {
    hide *;
    ValidKernel(k, intrinsic);
    var b := k.plan.b;
    forall j | b.Edge(j, ip)
      ensures b.start <= j < b.latch && (r in k.At(j) || SureToWrite(k, j, r))
    {
      EdgeBack(b, j, ip);
      NothingLeapsOver(b, w, j, ip, r);
      if j == w {
        UnskippedWrites(k, r, w);
      } else {
        WrittenTypesStay(k, intrinsic, w, j, r);
      }
    }
    TypedEverywhere(k, intrinsic, ip, r);
  }

  lemma UnskippedWrites(k: Kernel, r: nat, w: int)
    requires k.Valid() && k.plan.b.start <= w < k.plan.b.latch && WritesUnskipped(k.plan.b, r, w)
    ensures SureToWrite(k, w, r)
  {
  }

  lemma NothingLeapsOver(b: Loop, w: int, j: int, ip: int, r: nat)
    requires b.Valid() && b.start <= w < ip && w < b.latch && b.Visited(w) && b.Edge(j, ip) && WritesUnskipped(b, r, w)
    ensures w <= j
  {
    if j < w {
      if b.KernelJump(j) == Some(ip) {
        assert b.Leaps(j, w);
      } else {
        b.NotConsumed(j);
      }
    }
  }

  /** So every register the loop writes is typed at the FORLOOP. */
  lemma WrittenTypedAtLatch(k: Kernel, intrinsic: nat -> Option<nat>, r: nat)
    requires Accepted(k, intrinsic) && NoDeadCode(k.plan.b) && r in k.plan.found.written
    ensures r in k.At(k.plan.b.latch)
  {
    hide Loop.Visited, Loop.KernelJump, Loop.CallFrom, Accounted, CallsFed, Flow.From, AllRun, EndsAsItStarts, Slotted;
    var b := k.plan.b;
    b.StartVisited();
    LatchVisited(k, intrinsic, b.start);
    if r in k.plan.types {
      EntryTypesStay(k, intrinsic, b.latch, r);
    } else {
      var w :| b.start <= w < b.latch && b.Visited(w) && WritesUnskipped(b, r, w);
      WrittenTypesStay(k, intrinsic, w, b.latch, r);
    }
  }

  lemma {:induction false} LatchVisited(k: Kernel, intrinsic: nat -> Option<nat>, ip: int)
    requires Accepted(k, intrinsic) && k.plan.b.start <= ip <= k.plan.b.latch && k.plan.b.Visited(ip)
    ensures k.plan.b.Visited(k.plan.b.latch)
    decreases k.plan.b.latch - ip
  {
    hide Loop.KernelJump, Loop.CallFrom, Accounted, Planned, Loop.Visited;
    if ip < k.plan.b.latch {
      VisitedNext(k.plan.b, ip);
      LatchVisited(k, intrinsic, k.plan.b.NextPc(ip));
    }
  }

  /** The frames of exit and interpreter are the same at the loop's end and
      when the budget runs out; a side exit may only leave stale the body's
      temporaries, above the loop's own registers. */
  ghost predicate SameFrames(k: Kernel, e: Exit, s: State)
    requires k.Valid()
  {
    match e
    case LoopEnd(frame, _) => forall r :: Get(frame, r) == Get(s.frame, r)
    case BudgetExit(frame, _) => forall r :: Get(frame, r) == Get(s.frame, r)
    case SideExit(ip, frame, _) => forall r: nat :: r < k.plan.Base() || r in k.plan.types ==> Get(frame, r) == Get(s.frame, r)
    case Stuck => false
  }

  /** In a body without dead code, the frames agree outright. */
  lemma SameAtExit(k: Kernel, intrinsic: nat -> Option<nat>, e: Exit, s: State)
    requires Accepted(k, intrinsic) && NoDeadCode(k.plan.b) && Agree(k, e, s)
    ensures SameFrames(k, e, s)
  {
    hide Scanned, Planned, Loop.Visited, Loop.KernelJump, Loop.CallFrom;
    if e.SideExit? {
      forall r: nat | r < k.plan.Base() || r in k.plan.types
        ensures Get(e.frame, r) == Get(s.frame, r)
      {
        if r in k.plan.found.written {
          BelowIsLiveIn(k, intrinsic, e.ip, r);
          EntryTypesStay(k, intrinsic, e.ip, r);
        }
      }
    } else {
      forall r | r in k.plan.found.written ensures r in k.At(k.plan.b.latch) {
        WrittenTypedAtLatch(k, intrinsic, r);
      }
    }
  }

  lemma ValidKernel(k: Kernel, intrinsic: nat -> Option<nat>)
    requires Accepted(k, intrinsic)
    ensures 0 <= k.plan.b.start <= k.plan.b.latch && k.plan.b.p == k.env.p
    ensures k.Valid() && 0 <= k.plan.b.latch < |k.env.p.code| && k.env.p.code[k.plan.b.latch].ForLoop? && k.plan.b.Valid()
  {
  }

  /** A body with a side exit has the locals it writes live in. */
  lemma BelowIsLiveIn(k: Kernel, intrinsic: nat -> Option<nat>, ip: int, r: nat)
    requires Accepted(k, intrinsic) && k.plan.b.start <= ip < k.plan.b.latch && k.plan.b.Visited(ip)
    requires var i := k.env.p.code[ip]; i.Call? || i.GetTable? || i.SetTable?
    requires r in k.plan.found.written && (r < k.plan.Base() || r in k.plan.types)
    ensures r in k.plan.types
  {
    hide Loop.Visited, Loop.KernelJump, Loop.CallFrom, CallsFed, Flow.From, AllRun, EndsAsItStarts, Slotted, SurelyWritten;
    ScannedAt(k, intrinsic, ip);
  }

  // ---------- Loops that keep their index ----------

  /** No instruction of the body writes the FORLOOP's index, as in every loop
      the compiler emits: the index has no name in Lua. */
  ghost predicate IndexKept(b: Loop)
    requires b.Valid() && b.p.code[b.latch].ForLoop?
  {
    forall ip :: b.start <= ip < b.latch && b.Visited(ip) ==> KeepsIndex(b, ip)
  }

  ghost predicate KeepsIndex(b: Loop, ip: int)
    requires b.Valid() && b.p.code[b.latch].ForLoop? && b.start <= ip < b.latch
  {
    Writes(b.p.code[ip]) != Some(b.p.code[b.latch].a)
  }

  /** The planner holds the index typed at the FORLOOP. */
  lemma IndexTypedAtLatch(k: Kernel, intrinsic: nat -> Option<nat>)
    requires Accepted(k, intrinsic)
    ensures k.plan.Base() in k.At(k.plan.b.latch)
  {
    hide Loop.Visited, Loop.KernelJump, Loop.CallFrom, Accounted, CallsFed, SurelyWritten, Flow.From, AllRun, Slotted;
    var base := k.plan.Base();
    AcceptedFlow(k, intrinsic);
    assert LoopWrites(base, k.plan.intLoop)[0] == base;
    assert LoopRegister(base, base);
    assert TypeOf(k.plan.flow.At(k.plan.b, k.plan.b.latch), base) == k.plan.types[base];
  }

  /** A way on from ip, to a pc the passes stop at. */
  lemma WayOn(k: Kernel, intrinsic: nat -> Option<nat>, ip: int) returns (t: int)
    requires Accepted(k, intrinsic) && k.plan.b.start <= ip < k.plan.b.latch && k.plan.b.Visited(ip)
    ensures ip < t <= k.plan.b.latch && k.plan.b.Visited(t) && k.plan.b.Edge(ip, t)
  {
    hide Scanned, Planned, Loop.CallFrom, Loop.Visited;
    ScannedAt(k, intrinsic, ip);
    t := if k.env.p.code[ip].Jump? then k.plan.b.KernelJump(ip).value else k.plan.b.NextPc(ip);
    LandsVisited(k, intrinsic, ip, t);
  }

  /** Where the index is not typed, nothing types it again before FORLOOP. */
  lemma {:induction false} UntypedStays(k: Kernel, intrinsic: nat -> Option<nat>, ip: int)
    requires Accepted(k, intrinsic) && IndexKept(k.plan.b)
    requires k.plan.b.start <= ip <= k.plan.b.latch && k.plan.b.Visited(ip) && k.plan.Base() !in k.At(ip)
    ensures k.plan.Base() !in k.At(k.plan.b.latch)
    decreases k.plan.b.latch - ip
  {
    hide *;
    ValidKernel(k, intrinsic);
    if ip < k.plan.b.latch {
      var t := WayOn(k, intrinsic, ip);
      IndexUntyped(k, intrinsic, ip, t);
      UntypedStays(k, intrinsic, t);
    }
  }

  lemma IndexUntyped(k: Kernel, intrinsic: nat -> Option<nat>, ip: int, t: int)
    requires Accepted(k, intrinsic) && IndexKept(k.plan.b)
    requires k.plan.b.start <= ip < t <= k.plan.b.latch && k.plan.b.Visited(ip) && k.plan.b.Visited(t)
    requires k.plan.b.Edge(ip, t) && k.plan.Base() !in k.At(ip)
    ensures k.plan.Base() !in k.At(t)
  {
    hide Scanned, Planned, Loop.Visited, Loop.KernelJump, Loop.CallFrom, Loop.Edge;
    var b := k.plan.b;
    MergedAt(k, intrinsic, t);
    assert KeepsIndex(b, ip);
    assert k.plan.flow.At(b, ip) == k.At(ip);
    assert k.plan.Base() !in k.plan.flow.Out(b, ip);
  }

  /** So an accepted loop that keeps its index has no dead code: after dead
      code the index would have no type at the FORLOOP. */
  lemma IndexKeptNoDeadCode(k: Kernel, intrinsic: nat -> Option<nat>)
    requires Accepted(k, intrinsic) && IndexKept(k.plan.b)
    ensures NoDeadCode(k.plan.b)
  {
    hide *;
    ValidKernel(k, intrinsic);
    var b := k.plan.b;
    forall ip | b.start < ip <= b.latch && b.Visited(ip)
      ensures exists j :: b.Edge(j, ip)
    {
      if !exists j :: b.Edge(j, ip) {
        DeadUntyped(k, intrinsic, ip, k.plan.Base());
        UntypedStays(k, intrinsic, ip);
        IndexTypedAtLatch(k, intrinsic);
        assert false;
      }
    }
    Alive(b);
  }

  lemma Alive(b: Loop)
    requires b.Valid() && forall ip :: b.start < ip <= b.latch && b.Visited(ip) ==> exists j :: b.Edge(j, ip)
    ensures NoDeadCode(b)
  {
  }

  lemma DeadUntyped(k: Kernel, intrinsic: nat -> Option<nat>, ip: int, r: nat)
    requires Accepted(k, intrinsic) && k.plan.b.start < ip <= k.plan.b.latch && k.plan.b.Visited(ip)
    requires !exists j :: k.plan.b.Edge(j, ip)
    ensures r !in k.At(ip)
  {
    hide Scanned, Planned, Loop.Visited, Loop.KernelJump, Loop.CallFrom, Loop.Edge;
    MergedAt(k, intrinsic, ip);
  }

  /** Without dead code an accepted kernel leaves the interpreter's frame. Every
      loop that keeps its index is such a one, by IndexKeptNoDeadCode. */
  lemma KernelSameFrames(k: Kernel, intrinsic: nat -> Option<nat>, heap: Heap, budget: nat) returns (n: nat, s': State)
    requires Accepted(k, intrinsic) && Enters(k, heap) && NoDeadCode(k.plan.b)
    requires k.plan.b.latch + 1 + k.env.p.code[k.plan.b.latch].sbx == k.plan.b.start
    ensures n == k.Steps(heap, budget) && Bytecode.Run(k.env, State(k.plan.b.latch, k.frame, heap), n) == Some(s')
    ensures Agree(k, k.Run(heap, budget), s') && SameFrames(k, k.Run(heap, budget), s')
  {
    hide *;
    ValidKernel(k, intrinsic);
    n, s' := KernelSimulates(k, intrinsic, heap, budget);
    SameAtExit(k, intrinsic, k.Run(heap, budget), s');
  }

  // ---------- When every register is written back ----------

  /** Every register the loop writes is typed at the FORLOOP. */
  ghost predicate AllTypedAtLatch(k: Kernel)
    requires k.Valid()
  {
    forall r :: r in k.plan.found.written ==> r in k.At(k.plan.b.latch)
  }

  /** Then a loop end and a budget exit leave the interpreter's frame, dead code
      or not. */
  lemma KernelSameAtEnds(k: Kernel, intrinsic: nat -> Option<nat>, heap: Heap, budget: nat) returns (n: nat, s': State)
    requires Accepted(k, intrinsic) && Enters(k, heap) && AllTypedAtLatch(k)
    requires k.plan.b.latch + 1 + k.env.p.code[k.plan.b.latch].sbx == k.plan.b.start
    ensures n == k.Steps(heap, budget) && Bytecode.Run(k.env, State(k.plan.b.latch, k.frame, heap), n) == Some(s')
    ensures Agree(k, k.Run(heap, budget), s')
    ensures !k.Run(heap, budget).SideExit? ==> SameFrames(k, k.Run(heap, budget), s')
  {
    hide *;
    ValidKernel(k, intrinsic);
    n, s' := KernelSimulates(k, intrinsic, heap, budget);
    if !k.Run(heap, budget).SideExit? {
      TypedIsSame(k, intrinsic, k.Run(heap, budget), s');
    }
  }

  lemma TypedIsSame(k: Kernel, intrinsic: nat -> Option<nat>, e: Exit, s: State)
    requires Accepted(k, intrinsic) && AllTypedAtLatch(k) && Agree(k, e, s) && !e.SideExit?
    ensures SameFrames(k, e, s)
  {
    hide Scanned, Planned, Loop.Visited, Loop.KernelJump, Loop.CallFrom;
  }

  /** No way leads to ip. */
  ghost predicate Dead(b: Loop, ip: int)
    requires b.Valid()
  {
    b.start < ip <= b.latch && b.Visited(ip) && !exists j :: b.Edge(j, ip)
  }

  /** A way from dead code to ip, on which nothing writes r. */
  ghost predicate AvoidingPath(b: Loop, r: nat, path: seq<int>, ip: int)
    requires b.Valid()
  {
    && |path| > 0 && Dead(b, path[0]) && path[|path| - 1] == ip
    && (forall i :: 0 <= i < |path| - 1 ==> Avoids(b, r, path[i], path[i + 1]))
  }

  ghost predicate Avoids(b: Loop, r: nat, j: int, ip: int)
    requires b.Valid()
  {
    b.Edge(j, ip) && Writes(b.p.code[j]) != Some(r)
  }

  /** A way on from ip that avoids r lengthens the path. */
  lemma LongerPath(b: Loop, r: nat, path: seq<int>, j: int, ip: int)
    requires b.Valid() && AvoidingPath(b, r, path, j) && Avoids(b, r, j, ip)
    ensures AvoidingPath(b, r, path + [ip], ip)
  {
    hide Avoids, Dead;
    forall i | 0 <= i < |path|
      ensures Avoids(b, r, (path + [ip])[i], (path + [ip])[i + 1])
    {
      if i < |path| - 1 {
        assert Avoids(b, r, path[i], path[i + 1]);
      }
    }
  }

  /** Along a path from dead code that avoids r, r stays untyped. */
  lemma {:induction false} UntypedAlong(k: Kernel, intrinsic: nat -> Option<nat>, r: nat, path: seq<int>, ip: int)
    requires Accepted(k, intrinsic) && AvoidingPath(k.plan.b, r, path, ip)
    ensures k.plan.b.start < ip <= k.plan.b.latch && k.plan.b.Visited(ip) && r !in k.At(ip)
    decreases |path|
  {
    hide Accepted, Kernel.At, Loop.Visited, Loop.Edge, Dead, Avoids, Loop.KernelJump;
    ValidKernel(k, intrinsic);
    if |path| == 1 {
      PathEnds(k.plan.b, r, path, ip);
      DeadUntyped(k, intrinsic, ip, r);
    } else {
      var j := PathStep(k.plan.b, r, path, ip);
      UntypedAlong(k, intrinsic, r, path[..|path| - 1], j);
      StaysUntyped(k, intrinsic, r, j, ip);
    }
  }

  lemma PathEnds(b: Loop, r: nat, path: seq<int>, ip: int)
    requires b.Valid() && AvoidingPath(b, r, path, ip) && |path| == 1
    ensures b.start < ip <= b.latch && b.Visited(ip) && !exists j :: b.Edge(j, ip)
  {
  }

  lemma PathStep(b: Loop, r: nat, path: seq<int>, ip: int) returns (j: int)
    requires b.Valid() && AvoidingPath(b, r, path, ip) && |path| > 1
    ensures AvoidingPath(b, r, path[..|path| - 1], j) && Avoids(b, r, j, ip)
  {
    hide Avoids, Dead;
    j := path[|path| - 2];
    assert Avoids(b, r, path[|path| - 2], path[|path| - 2 + 1]);
  }

  lemma StaysUntyped(k: Kernel, intrinsic: nat -> Option<nat>, r: nat, j: int, ip: int)
    requires Accepted(k, intrinsic) && Avoids(k.plan.b, r, j, ip) && k.plan.b.start <= j && r !in k.At(j)
    ensures k.plan.b.start < ip <= k.plan.b.latch && k.plan.b.Visited(ip) && r !in k.At(ip)
  {
    hide Scanned, Planned, Loop.Visited, Loop.KernelJump, Loop.CallFrom, Loop.Edge;
    var b := k.plan.b;
    EdgeBack(b, j, ip);
    LandsVisited(k, intrinsic, j, ip);
    MergedAt(k, intrinsic, ip);
    assert k.plan.flow.At(b, j) == k.At(j);
    assert r !in k.plan.flow.Out(b, j);
  }

  /** A register untyped at ip, and typed on entry or surely written before ip,
      is avoided by some path from dead code. */
  lemma {:induction false} AvoidedBefore(k: Kernel, intrinsic: nat -> Option<nat>, r: nat, w: int, ip: int) returns (path: seq<int>)
    requires Accepted(k, intrinsic) && k.plan.b.start < ip <= k.plan.b.latch && k.plan.b.Visited(ip) && r !in k.At(ip)
    requires r in k.plan.types
             || (k.plan.b.start <= w < ip && k.plan.b.Visited(w) && w < k.plan.b.latch && WritesUnskipped(k.plan.b, r, w))
    ensures AvoidingPath(k.plan.b, r, path, ip)
    decreases ip
  {
    hide *;
    ValidKernel(k, intrinsic);
    var b := k.plan.b;
    if Dead(b, ip) {
      path := [ip];
      DeadPath(b, r, ip);
    } else {
      var j := UntypedFrom(k, intrinsic, r, ip);
      NotBefore(k, intrinsic, r, w, j, ip);
      var front := AvoidedBefore(k, intrinsic, r, w, j);
      LongerPath(b, r, front, j, ip);
      path := front + [ip];
    }
  }

  lemma DeadPath(b: Loop, r: nat, ip: int)
    requires b.Valid() && Dead(b, ip)
    ensures AvoidingPath(b, r, [ip], ip)
  {
  }

  /** Where r is untyped and the pc is not dead, some way there leaves r untyped. */
  lemma UntypedFrom(k: Kernel, intrinsic: nat -> Option<nat>, r: nat, ip: int) returns (j: int)
    requires Accepted(k, intrinsic) && k.plan.b.start < ip <= k.plan.b.latch && k.plan.b.Visited(ip) && r !in k.At(ip)
    requires !Dead(k.plan.b, ip)
    ensures Avoids(k.plan.b, r, j, ip) && k.plan.b.start <= j < ip && j < k.plan.b.latch && k.plan.b.Visited(j) && r !in k.At(j)
  {
    hide Accepted, Loop.Visited, Loop.Edge, Flow.Merged, Flow.Out;
    ValidKernel(k, intrinsic);
    MergedAt(k, intrinsic, ip);
    j := UngivenFrom(k.plan.flow, k.plan.b, r, ip);
    EdgeBack(k.plan.b, j, ip);
    NotWritten(k, intrinsic, r, j);
  }

  lemma UngivenFrom(f: Flow, b: Loop, r: nat, ip: int) returns (j: int)
    requires b.Valid() && f.Fits(b) && b.start < ip <= b.latch && f.Merged(b, ip) && r !in f.At(b, ip) && !Dead(b, ip)
    requires b.Visited(ip)
    ensures b.Edge(j, ip) && b.start <= j < b.latch && r !in f.Out(b, j)
  {
    hide Loop.Visited;
    assert !f.Everywhere(b, ip, r);
    j :| b.Edge(j, ip) && r !in f.Out(b, j);
  }

  lemma NotWritten(k: Kernel, intrinsic: nat -> Option<nat>, r: nat, j: int)
    requires Accepted(k, intrinsic) && k.plan.b.start <= j < k.plan.b.latch && k.plan.b.Visited(j)
    requires k.plan.flow.Fits(k.plan.b) && r !in k.plan.flow.Out(k.plan.b, j)
    ensures Writes(k.plan.b.p.code[j]) != Some(r) && r !in k.At(j)
  {
    hide Scanned, Planned, Loop.Visited, Loop.KernelJump, Loop.CallFrom;
    assert k.plan.flow.At(k.plan.b, j) == k.At(j);
    if Writes(k.plan.b.p.code[j]) == Some(r) {
      WritesDecided(k, intrinsic, j);
    }
  }

  /** That way does not come from the start, nor from before a sure write. */
  lemma NotBefore(k: Kernel, intrinsic: nat -> Option<nat>, r: nat, w: int, j: int, ip: int)
    requires Accepted(k, intrinsic) && Avoids(k.plan.b, r, j, ip) && k.plan.b.start <= j < k.plan.b.latch && r !in k.At(j)
    requires r in k.plan.types
             || (k.plan.b.start <= w < ip && k.plan.b.Visited(w) && w < k.plan.b.latch && WritesUnskipped(k.plan.b, r, w))
    ensures k.plan.b.start < j && (r in k.plan.types || w < j)
  {
    hide *;
    ValidKernel(k, intrinsic);
    if r in k.plan.types {
      EntryDecided(k, intrinsic);
    } else {
      AvoidsMeans(k.plan.b, r, j, ip);
      NothingLeapsOver(k.plan.b, w, j, ip, r);
      UnskippedWrites(k, r, w);
      SureWrites(k, w, r);
    }
  }

  lemma AvoidsMeans(b: Loop, r: nat, j: int, ip: int)
    requires b.Valid() && Avoids(b, r, j, ip)
    ensures b.Edge(j, ip) && b.start <= j < b.latch && Writes(b.p.code[j]) != Some(r)
  {
  }

  lemma SureWrites(k: Kernel, w: int, r: nat)
    requires 0 <= w < |k.env.p.code| && SureToWrite(k, w, r)
    ensures Writes(k.env.p.code[w]) == Some(r)
  {
  }

  /** For an accepted plan, exactly where no path from dead code to the FORLOOP
      avoids a written register, is every written register typed there. */
  lemma AllTypedExact(k: Kernel, intrinsic: nat -> Option<nat>)
    requires Accepted(k, intrinsic)
    ensures AllTypedAtLatch(k) <==>
            forall r: nat, path :: r in k.plan.found.written ==> !AvoidingPath(k.plan.b, r, path, k.plan.b.latch)
  {
    hide Accepted, AvoidingPath;
    ValidKernel(k, intrinsic);
    var b := k.plan.b;
    forall r: nat, path | r in k.plan.found.written && AvoidingPath(b, r, path, b.latch)
      ensures r !in k.At(b.latch)
    {
      UntypedAlong(k, intrinsic, r, path, b.latch);
    }
    forall r | r in k.plan.found.written && r !in k.At(b.latch)
      ensures exists path :: AvoidingPath(b, r, path, b.latch)
    {
      var path := WrittenAvoided(k, intrinsic, r);
    }
  }

  lemma WrittenAvoided(k: Kernel, intrinsic: nat -> Option<nat>, r: nat) returns (path: seq<int>)
    requires Accepted(k, intrinsic) && r in k.plan.found.written && r !in k.At(k.plan.b.latch)
    ensures AvoidingPath(k.plan.b, r, path, k.plan.b.latch)
  {
    hide Loop.Visited, Loop.KernelJump, Loop.CallFrom, Accounted, CallsFed, Flow.From, AllRun, EndsAsItStarts, Slotted, AvoidingPath;
    var b := k.plan.b;
    b.StartVisited();
    LatchVisited(k, intrinsic, b.start);
    if r in k.plan.types {
      EntryAtLatch(k, intrinsic, r);
      path := AvoidedBefore(k, intrinsic, r, b.start, b.latch);
    } else {
      var w :| b.start <= w < b.latch && b.Visited(w) && WritesUnskipped(b, r, w);
      path := AvoidedBefore(k, intrinsic, r, w, b.latch);
    }
  }

  lemma EntryAtLatch(k: Kernel, intrinsic: nat -> Option<nat>, r: nat)
    requires Accepted(k, intrinsic) && r in k.plan.types && r !in k.At(k.plan.b.latch)
    ensures k.plan.b.start < k.plan.b.latch
  {
    hide *;
    ValidKernel(k, intrinsic);
    if k.plan.b.start == k.plan.b.latch {
      EntryDecided(k, intrinsic);
    }
  }

  /** What PlanKernel returns is accepted, if its code assembles. */
  lemma PlanAccepted(k: Kernel, intrinsic: nat -> Option<nat>, latch: int, intLoop: bool)
    requires 0 <= latch < |k.env.p.code| && k.env.p.code[latch].ForLoop? && 0 <= latch + 1 + k.env.p.code[latch].sbx
    requires k.plan.b == Loop(k.env.p, latch + 1 + k.env.p.code[latch].sbx, latch) && k.plan.intLoop == intLoop
    requires Scanned(k.plan.b, intrinsic, intLoop, k.plan.found) && Planned(k.plan)
    requires Assembles(k.plan.b) && k.env.ops.Exact()
    ensures Accepted(k, intrinsic) && k.plan.b.latch + 1 + k.env.p.code[k.plan.b.latch].sbx == k.plan.b.start
  {
    hide Flow.Merged, Loop.Visited, Loop.CallFrom, Accounted, CallsFed, AllRun, Slotted, EndsAsItStarts;
  }
}
