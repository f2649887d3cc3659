/** The scan of a loop body: whether its instructions can be in a kernel, and which
    registers are live in, written, called from and indexed. */
module KernelScan {
  import opened Wrappers
  import opened Bytecode
  import opened KernelFlow

  /** An intrinsic call: of the function fn, which upvalue n must hold. */
  datatype KernelCall = KernelCall(n: nat, fn: nat)

  /** What the scan of a body found. */
  datatype Found = Found(
    liveIn: seq<nat>,
    written: seq<nat>,
    calls: map<int, KernelCall>,
    buffers: map<nat, bool>)
  {
    /** The body may leave in the middle. */
    predicate Leaves() {
      calls != map[] || buffers != map[]
    }
  }

  predicate KernelDivisor(v: Value) {
    v.Int? && v.i != 0 && -0x8000_0000 <= v.i < 0x8000_0000
  }

  /** A field is a register or a constant number. */
  predicate NumberField(p: Proto, field: RK) {
    field.K? ==> Constant(p, field.k).Number?()
  }

  // ---------- Which bodies qualify ----------

  /** r is written at some pc that no jump from before it skips. */
  ghost predicate SurelyWritten(b: Loop, r: nat, upTo: int)
    requires b.Valid() && upTo <= b.latch
  {
    exists ip :: b.start <= ip < upTo && b.Visited(ip) && WritesUnskipped(b, r, ip)
  }

  ghost predicate WritesUnskipped(b: Loop, r: nat, ip: int)
    requires b.Valid() && b.start <= ip < b.latch
  {
    Writes(b.p.code[ip]) == Some(r) && !b.Skipped(ip)
  }

  predicate LoopRegister(base: nat, r: nat) {
    base <= r <= base + 3
  }

  /** The registers the FORLOOP itself writes: a float loop's limit stays. */
  function LoopWrites(base: nat, intLoop: bool): seq<nat> {
    if intLoop then [base, base + 1, base + 3] else [base, base + 3]
  }

  /** The instruction reads register r as a number. */
  predicate ReadsRegister(i: Instr, r: nat) {
    match i
    case Move(_, b) => r == b
    case UnaryMinus(_, b) => r == b
    case Arith(_, _, rb, rc) => Mentions(rb, r) || Mentions(rc, r)
    case DivMod(_, _, rb, rc) => Mentions(rb, r) || Mentions(rc, r)
    case Compare(_, _, rb, rc) => Mentions(rb, r) || Mentions(rc, r)
    case Call(a, _, _) => r == a + 1
    case GetTable(_, _, rc) => Mentions(rc, r)
    case SetTable(_, rb, rc) => Mentions(rb, r) || Mentions(rc, r)
    case _ => false
  }

  /** It reads or writes r as a number. */
  predicate Uses(i: Instr, r: nat) {
    ReadsRegister(i, r) || Writes(i) == Some(r)
  }

  /** It indexes the buffer in register t. */
  predicate Indexes(i: Instr, t: nat) {
    (i.GetTable? && i.b == t) || (i.SetTable? && i.a == t)
  }

  /** An instruction before upTo uses r, */
  ghost predicate UsedBefore(b: Loop, r: nat, upTo: int)
    requires b.Valid() && upTo <= b.latch
  {
    exists j :: b.start <= j < upTo && b.Visited(j) && Uses(b.p.code[j], r)
  }

  /** writes it, */
  ghost predicate WrittenBefore(b: Loop, r: nat, upTo: int)
    requires b.Valid() && upTo <= b.latch
  {
    exists j :: b.start <= j < upTo && b.Visited(j) && Writes(b.p.code[j]) == Some(r)
  }

  /** or indexes it. */
  ghost predicate IndexedBefore(b: Loop, t: nat, upTo: int)
    requires b.Valid() && upTo <= b.latch
  {
    exists j :: b.start <= j < upTo && b.Visited(j) && Indexes(b.p.code[j], t)
  }

  /** The body's first use of r is at j, and reads it, or writes it where a jump may
      skip the write. */
  ghost predicate EntersAt(b: Loop, r: nat, j: int)
    requires b.Valid() && b.start <= j < b.latch
  {
    && !UsedBefore(b, r, j)
    && (ReadsRegister(b.p.code[j], r) || (Writes(b.p.code[j]) == Some(r) && b.Skipped(j)))
  }

  ghost predicate EntersBefore(b: Loop, r: nat, upTo: int)
    requires b.Valid() && upTo <= b.latch
  {
    exists j :: b.start <= j < upTo && b.Visited(j) && EntersAt(b, r, j)
  }

  /** A value of r from before the iteration may matter to it: that of the index,
      the limit and the step does. */
  ghost predicate LiveIn(b: Loop, base: nat, r: nat, upTo: int)
    requires b.Valid() && upTo <= b.latch
  {
    base <= r <= base + 2 || (!LoopRegister(base, r) && EntersBefore(b, r, upTo))
  }

  /** The GETUPVAL at u is of an intrinsic, and feeds the CALL at c. */
  ghost predicate FeedsCall(b: Loop, intrinsic: nat -> Option<nat>, u: int, c: int)
    requires b.Valid() && b.start <= u < b.latch
  {
    b.p.code[u].GetUpValue? && b.IntrinsicCall(u) == Some(c) && intrinsic(b.p.code[u].n).Some?
  }

  ghost predicate FedBefore(b: Loop, intrinsic: nat -> Option<nat>, c: int, upTo: int)
    requires b.Valid() && upTo <= b.latch
  {
    exists u :: b.start <= u < upTo && b.Visited(u) && FeedsCall(b, intrinsic, u, c)
  }

  /** A constant that generated code can reach, and a number. */
  predicate NumberWithin(p: Proto, constOK: nat -> bool, k: nat) {
    constOK(k) && Constant(p, k).Number?()
  }

  /** A field that is one, if it is a constant. */
  predicate FieldWithin(p: Proto, constOK: nat -> bool, field: RK) {
    field.K? ==> NumberWithin(p, constOK, field.k)
  }

  /** The instruction at ip can be in a kernel. */
  ghost predicate Scans(b: Loop, constOK: nat -> bool, intrinsic: nat -> Option<nat>, ip: int)
    requires b.Valid() && b.start <= ip < b.latch
  {
    match b.p.code[ip]
    case Move(_, _) => true
    case LoadConstant(_, bx) => NumberWithin(b.p, constOK, bx)
    case Arith(_, _, rb, rc) => FieldWithin(b.p, constOK, rb) && FieldWithin(b.p, constOK, rc)
    case DivMod(_, _, rb, rc) =>
      rc.K? && KernelDivisor(Constant(b.p, rc.k)) && FieldWithin(b.p, constOK, rc) && FieldWithin(b.p, constOK, rb)
    case UnaryMinus(_, _) => true
    case Compare(_, _, rb, rc) => FieldWithin(b.p, constOK, rb) && FieldWithin(b.p, constOK, rc) && b.KernelJump(ip).Some?
    case Jump(_, _) => b.KernelJump(ip).Some?
    case GetUpValue(_, n) => b.IntrinsicCall(ip).Some? && intrinsic(n).Some?
    case Call(_, _, _) => FedBefore(b, intrinsic, ip, ip)
    case GetTable(_, _, rc) => FieldWithin(b.p, constOK, rc)
    case SetTable(_, rb, rc) => FieldWithin(b.p, constOK, rb) && FieldWithin(b.p, constOK, rc)
    case _ => false
  }

  /** All the body's instructions can, and what it indexes is no number, is never
      written, and gets no new table. */
  ghost predicate Scannable(b: Loop, constOK: nat -> bool, intrinsic: nat -> Option<nat>) {
    && b.Valid() && b.p.code[b.latch].ForLoop?
    && (forall ip :: b.start <= ip < b.latch && b.Visited(ip) ==> Scans(b, constOK, intrinsic, ip))
    && (forall t :: IndexedBefore(b, t, b.latch) ==> Apart(b, t))
  }

  ghost predicate Apart(b: Loop, t: nat)
    requires b.Valid() && b.p.code[b.latch].ForLoop?
  {
    !LoopRegister(b.p.code[b.latch].a, t) && !UsedBefore(b, t, b.latch) && NewTable(t) !in b.p.code
  }

  /** calls are just those fed before upTo. */
  ghost predicate CallsNoted(b: Loop, intrinsic: nat -> Option<nat>, calls: map<int, KernelCall>, upTo: int)
    requires b.Valid() && upTo <= b.latch
  {
    && CallsFed(b, intrinsic, calls, upTo)
    && (forall u, c :: b.start <= u < upTo && b.Visited(u) && FeedsCall(b, intrinsic, u, c) ==>
          c in calls && calls[c] == KernelCall(b.p.code[u].n, intrinsic(b.p.code[u].n).value))
  }

  /** buffers are just those indexed before upTo, true where one is read. */
  ghost predicate BuffersNoted(b: Loop, buffers: map<nat, bool>, upTo: int)
    requires b.Valid() && upTo <= b.latch
  {
    && (forall t :: t in buffers <==> IndexedBefore(b, t, upTo))
    && (forall t :: t in buffers ==> (buffers[t] <==> ReadBefore(b, t, upTo)))
  }

  ghost predicate ReadBefore(b: Loop, t: nat, upTo: int)
    requires b.Valid() && upTo <= b.latch
  {
    exists j :: b.start <= j < upTo && b.Visited(j) && b.p.code[j].GetTable? && b.p.code[j].b == t
  }

  /** What the scan finds. With side exits, what the body writes below the loop's
      registers is live in too. */
  ghost predicate FoundIn(b: Loop, intrinsic: nat -> Option<nat>, intLoop: bool, found: Found) {
    && b.Valid() && b.p.code[b.latch].ForLoop?
    && var base := b.p.code[b.latch].a;
    && (forall r: nat :: r in found.written <==> r in LoopWrites(base, intLoop) || WrittenBefore(b, r, b.latch))
    && (forall r: nat :: r in found.liveIn <==>
          LiveIn(b, base, r, b.latch) || (found.Leaves() && r < base && WrittenBefore(b, r, b.latch)))
    && CallsNoted(b, intrinsic, found.calls, b.latch)
    && BuffersNoted(b, found.buffers, b.latch)
  }

  /** The scan accepted the instruction at ip, and what it found accounts for
      it. */
  ghost predicate Accounted(b: Loop, intrinsic: nat -> Option<nat>, found: Found, ip: int)
    requires b.Valid() && b.start <= ip < b.latch
  {
    match b.p.code[ip]
    case Move(a, _) => a in found.written
    case LoadConstant(a, bx) => a in found.written && Constant(b.p, bx).Number?()
    case Arith(_, a, rb, rc) => a in found.written && NumberField(b.p, rb) && NumberField(b.p, rc)
    case DivMod(_, a, rb, rc) =>
      a in found.written && NumberField(b.p, rb) && rc.K? && KernelDivisor(Constant(b.p, rc.k))
    case UnaryMinus(a, _) => a in found.written
    case Compare(_, _, rb, rc) => NumberField(b.p, rb) && NumberField(b.p, rc) && b.KernelJump(ip).Some?
    case Jump(_, _) => b.KernelJump(ip).Some?
    case GetUpValue(_, n) =>
      var call := b.IntrinsicCall(ip);
      call.Some? && intrinsic(n).Some? && call.value in found.calls && found.calls[call.value] == KernelCall(n, intrinsic(n).value)
    case Call(a, _, _) => a in found.written && ip in found.calls
    case GetTable(a, t, rc) => a in found.written && NumberField(b.p, rc) && t in found.buffers && found.buffers[t]
    case SetTable(t, rb, rc) => NumberField(b.p, rb) && NumberField(b.p, rc) && t in found.buffers
    case _ => false
  }

  /** Every call comes from the GETUPVAL that feeds it. */
  ghost predicate CallsFed(b: Loop, intrinsic: nat -> Option<nat>, calls: map<int, KernelCall>, upTo: int)
    requires b.Valid() && upTo <= b.latch
  {
    forall c :: c in calls ==> exists u :: b.start <= u < upTo && b.Visited(u) && Feeds(b, intrinsic, u, c, calls[c])
  }

  ghost predicate Feeds(b: Loop, intrinsic: nat -> Option<nat>, u: int, c: int, call: KernelCall)
    requires b.Valid() && b.start <= u < b.latch
  {
    && b.p.code[u].GetUpValue? && b.IntrinsicCall(u) == Some(c)
    && call.n == b.p.code[u].n && intrinsic(call.n) == Some(call.fn)
  }

  /** What the scan of the whole body guarantees. */
  ghost predicate Scanned(b: Loop, intrinsic: nat -> Option<nat>, intLoop: bool, found: Found) {
    && JumpsStay(b) && b.p.code[b.latch].ForLoop?
    && (forall ip :: b.start <= ip < b.latch && b.Visited(ip) ==> Accounted(b, intrinsic, found, ip))
    && CallsFed(b, intrinsic, found.calls, b.latch)
    && var base := b.p.code[b.latch].a;
    && base in found.liveIn && base + 1 in found.liveIn && base + 2 in found.liveIn
    && (forall r :: r in LoopWrites(base, intLoop) ==> r in found.written)
    && (forall r :: r in found.written ==> LoopRegister(base, r) || r in found.liveIn || SurelyWritten(b, r, b.latch))
    && (forall r :: r in found.buffers ==>
          !LoopRegister(base, r) && r !in found.written && r !in found.liveIn && NewTable(r) !in b.p.code)
    && (found.calls != map[] || found.buffers != map[] ==>
          forall r :: r in found.written && r < base ==> r in found.liveIn)
  }

  /** What can be scanned is accounted for by what is found. */
  lemma FoundAccounts(b: Loop, constOK: nat -> bool, intrinsic: nat -> Option<nat>, intLoop: bool, found: Found, ip: int)
    requires FoundIn(b, intrinsic, intLoop, found) && b.start <= ip < b.latch && b.Visited(ip)
    requires Scans(b, constOK, intrinsic, ip)
    ensures Accounted(b, intrinsic, found, ip)
  {
    hide Loop.Visited, Loop.KernelJump, Loop.CallFrom, Uses, LiveIn;
    var i := b.p.code[ip];
    if i.GetUpValue? {
      assert FeedsCall(b, intrinsic, ip, b.IntrinsicCall(ip).value);
    } else if i.Call? {
      assert WrittenBefore(b, i.a, b.latch);
    } else if i.GetTable? {
      assert Indexes(i, i.b) && WrittenBefore(b, i.a, b.latch);
    } else if i.SetTable? {
      assert Indexes(i, i.a);
    } else if Writes(i).Some? {
      assert WrittenBefore(b, Writes(i).value, b.latch);
    }
  }

  /** A written register that is not live in is surely written. */
  lemma WrittenLives(b: Loop, base: nat, r: nat, upTo: int)
    requires b.Valid() && upTo <= b.latch && UsedBefore(b, r, upTo) && !EntersBefore(b, r, upTo)
    ensures SurelyWritten(b, r, upTo)
  {
    hide Loop.Visited, Uses;
    var j := FirstUse(b, r, upTo);
    assert !EntersAt(b, r, j);
    assert WritesUnskipped(b, r, j) by { UsesWrites(b.p.code[j], r); }
  }

  lemma UsesWrites(i: Instr, r: nat)
    requires Uses(i, r)
    ensures ReadsRegister(i, r) || Writes(i) == Some(r)
  {
  }

  lemma {:induction false} FirstUse(b: Loop, r: nat, upTo: int) returns (j: int)
    requires b.Valid() && b.start <= upTo <= b.latch && UsedBefore(b, r, upTo)
    ensures b.start <= j < upTo && b.Visited(j) && Uses(b.p.code[j], r) && !UsedBefore(b, r, j)
    decreases upTo
  {
    hide Loop.Visited, Uses;
    j :| b.start <= j < upTo && b.Visited(j) && Uses(b.p.code[j], r);
    if UsedBefore(b, r, j) {
      j := FirstUse(b, r, j);
    }
  }

  lemma LivesUsed(b: Loop, base: nat, r: nat, upTo: int)
    requires b.Valid() && upTo <= b.latch && LiveIn(b, base, r, upTo)
    ensures LoopRegister(base, r) || UsedBefore(b, r, upTo)
  {
    hide Loop.Visited, Loop.Skipped;
    if !LoopRegister(base, r) {
      var j :| b.start <= j < upTo && b.Visited(j) && EntersAt(b, r, j);
      assert Uses(b.p.code[j], r);
    }
  }

  lemma WrittenUsed(b: Loop, r: nat, upTo: int)
    requires b.Valid() && upTo <= b.latch && WrittenBefore(b, r, upTo)
    ensures UsedBefore(b, r, upTo)
  {
    hide Loop.Visited;
    var j :| b.start <= j < upTo && b.Visited(j) && Writes(b.p.code[j]) == Some(r);
    assert Uses(b.p.code[j], r);
  }

  /** What is found in a body that can be scanned is all that kernels rely on. */
  lemma FoundScanned(b: Loop, constOK: nat -> bool, intrinsic: nat -> Option<nat>, intLoop: bool, found: Found)
    requires Scannable(b, constOK, intrinsic) && FoundIn(b, intrinsic, intLoop, found)
    ensures Scanned(b, intrinsic, intLoop, found)
  {
    hide Loop.Visited, Loop.KernelJump, Accounted, UsedBefore, WrittenBefore, IndexedBefore, EntersBefore, ReadBefore, SurelyWritten, Scans,
         CallsFed;
    var base := b.p.code[b.latch].a;
    forall ip | b.start <= ip < b.latch && b.Visited(ip)
      ensures Accounted(b, intrinsic, found, ip) && (b.p.code[ip].Compare? || b.p.code[ip].Jump? ==> b.KernelJump(ip).Some?)
    {
      FoundAccounts(b, constOK, intrinsic, intLoop, found, ip);
      ScansJump(b, constOK, intrinsic, ip);
    }
    forall r | r in found.written
      ensures LoopRegister(base, r) || r in found.liveIn || SurelyWritten(b, r, b.latch)
    {
      if !LoopRegister(base, r) {
        WrittenUsed(b, r, b.latch);
        if !EntersBefore(b, r, b.latch) {
          WrittenLives(b, base, r, b.latch);
        }
      }
    }
    forall t | t in found.buffers
      ensures !LoopRegister(base, t) && t !in found.written && t !in found.liveIn && NewTable(t) !in b.p.code
    {
      assert Apart(b, t);
      if t in found.written {
        WrittenUsed(b, t, b.latch);
      } else if t in found.liveIn {
        LivesUsed(b, base, t, b.latch);
      }
    }
  }

  lemma ScansJump(b: Loop, constOK: nat -> bool, intrinsic: nat -> Option<nat>, ip: int)
    requires b.Valid() && b.start <= ip < b.latch && Scans(b, constOK, intrinsic, ip)
    ensures b.p.code[ip].Compare? || b.p.code[ip].Jump? ==> b.KernelJump(ip).Some?
    ensures b.NextPc(ip) <= b.latch
  {
  }

  /** Two GETUPVALs never feed one call. */
  lemma FedOnce(b: Loop, intrinsic: nat -> Option<nat>, u: int, u': int, c: int)
    requires b.Valid() && b.start <= u < u' < b.latch
    requires b.p.code[u].GetUpValue? && b.p.code[u'].GetUpValue?
    requires b.IntrinsicCall(u) == Some(c)
    ensures b.IntrinsicCall(u') != Some(c)
  {
    b.CallFromSpans(b.p.code[u].a, u + 1);
    if b.IntrinsicCall(u') == Some(c) {
      b.CallFromSpans(b.p.code[u'].a, u' + 1);
    }
  }

  // ---------- One instruction more ----------

  /** What uses there are after ip's. */
  lemma UsedNext(b: Loop, r: nat, ip: int)
    requires b.Valid() && b.start <= ip < b.latch && b.Visited(ip)
    ensures UsedBefore(b, r, ip + 1) <==> UsedBefore(b, r, ip) || Uses(b.p.code[ip], r)
    ensures WrittenBefore(b, r, ip + 1) <==> WrittenBefore(b, r, ip) || Writes(b.p.code[ip]) == Some(r)
    ensures IndexedBefore(b, r, ip + 1) <==> IndexedBefore(b, r, ip) || Indexes(b.p.code[ip], r)
    ensures EntersBefore(b, r, ip + 1) <==> EntersBefore(b, r, ip) || EntersAt(b, r, ip)
  {
    hide Loop.Visited, Uses, Indexes, EntersAt;
  }

  lemma ReadNext(b: Loop, t: nat, ip: int)
    requires b.Valid() && b.start <= ip < b.latch && b.Visited(ip)
    ensures ReadBefore(b, t, ip + 1) <==> ReadBefore(b, t, ip) || (b.p.code[ip].GetTable? && b.p.code[ip].b == t)
  {
    hide Loop.Visited;
  }

  /** A test's JMP has none. */
  lemma UsedPastJump(b: Loop, r: nat, ip: int)
    requires b.Valid() && b.start <= ip && ip + 2 <= b.latch && b.Visited(ip) && b.p.code[ip].Compare?
    ensures UsedBefore(b, r, ip + 2) <==> UsedBefore(b, r, ip + 1)
    ensures WrittenBefore(b, r, ip + 2) <==> WrittenBefore(b, r, ip + 1)
    ensures IndexedBefore(b, r, ip + 2) <==> IndexedBefore(b, r, ip + 1)
    ensures EntersBefore(b, r, ip + 2) <==> EntersBefore(b, r, ip + 1)
    ensures ReadBefore(b, r, ip + 2) <==> ReadBefore(b, r, ip + 1)
  {
    hide Loop.Visited, Uses, Indexes, EntersAt;
    b.NotConsumed(ip);
  }

  lemma CallsNext(b: Loop, intrinsic: nat -> Option<nat>, calls: map<int, KernelCall>, ip: int)
    requires b.Valid() && b.start <= ip < b.latch && CallsNoted(b, intrinsic, calls, ip) && !b.p.code[ip].GetUpValue?
    ensures CallsNoted(b, intrinsic, calls, ip + 1)
  {
    hide Loop.Visited, Loop.CallFrom;
  }

  lemma CallsPastJump(b: Loop, intrinsic: nat -> Option<nat>, calls: map<int, KernelCall>, ip: int)
    requires b.Valid() && b.start <= ip && ip + 2 <= b.latch && b.Visited(ip) && b.p.code[ip].Compare?
    requires CallsNoted(b, intrinsic, calls, ip + 1)
    ensures CallsNoted(b, intrinsic, calls, ip + 2)
  {
    hide Loop.Visited, Loop.CallFrom;
    b.NotConsumed(ip);
  }

  lemma NotedFed(b: Loop, intrinsic: nat -> Option<nat>, calls: map<int, KernelCall>, c: int, upTo: int)
    requires b.Valid() && upTo <= b.latch && CallsNoted(b, intrinsic, calls, upTo)
    ensures c in calls <==> FedBefore(b, intrinsic, c, upTo)
  {
    hide Loop.Visited, Loop.CallFrom;
    if c in calls {
      var call := calls[c];
      var u :| b.start <= u < upTo && b.Visited(u) && Feeds(b, intrinsic, u, c, call);
      assert FeedsCall(b, intrinsic, u, c);
    }
  }

  /** A GETUPVAL that feeds no CALL, or is of no intrinsic. */
  lemma NothingNoted(b: Loop, intrinsic: nat -> Option<nat>, calls: map<int, KernelCall>, ip: int)
    requires b.Valid() && b.start <= ip < b.latch && CallsNoted(b, intrinsic, calls, ip) && b.p.code[ip].GetUpValue?
    requires b.IntrinsicCall(ip).None? || intrinsic(b.p.code[ip].n).None?
    ensures CallsNoted(b, intrinsic, calls, ip + 1)
  {
    hide Loop.Visited, Loop.CallFrom;
  }

  /** The CALL that a GETUPVAL feeds has not been noted, */
  lemma NotYetFed(b: Loop, intrinsic: nat -> Option<nat>, calls: map<int, KernelCall>, ip: int, c: int)
    requires b.Valid() && b.start <= ip < b.latch && CallsNoted(b, intrinsic, calls, ip)
    requires b.p.code[ip].GetUpValue? && b.IntrinsicCall(ip) == Some(c)
    ensures c !in calls
  {
    hide Loop.Visited, Loop.CallFrom;
    if c in calls {
      var call := calls[c];
      var u :| b.start <= u < ip && b.Visited(u) && Feeds(b, intrinsic, u, c, call);
      FedOnce(b, intrinsic, u, ip, c);
    }
  }

  /** and is then. */
  lemma CallNoted(b: Loop, intrinsic: nat -> Option<nat>, calls: map<int, KernelCall>, ip: int, c: int)
    requires b.Valid() && b.start <= ip < b.latch && b.Visited(ip) && CallsNoted(b, intrinsic, calls, ip) && c !in calls
    requires FeedsCall(b, intrinsic, ip, c)
    ensures CallsNoted(b, intrinsic, calls[c := KernelCall(b.p.code[ip].n, intrinsic(b.p.code[ip].n).value)], ip + 1)
  {
    hide Loop.Visited, Loop.CallFrom, Loop.IntrinsicCall;
    var after := calls[c := KernelCall(b.p.code[ip].n, intrinsic(b.p.code[ip].n).value)];
    assert Feeds(b, intrinsic, ip, c, after[c]);
    forall d | d in after
      ensures exists u :: b.start <= u < ip + 1 && b.Visited(u) && Feeds(b, intrinsic, u, d, after[d])
    {
      if d != c {
        var call := calls[d];
        var u :| b.start <= u < ip && b.Visited(u) && Feeds(b, intrinsic, u, d, call);
      }
    }
  }

  /** Buffers are noted where they are indexed. */
  lemma BuffersNext(b: Loop, before: map<nat, bool>, after: map<nat, bool>, ip: int)
    requires b.Valid() && b.start <= ip < b.latch && b.Visited(ip) && BuffersNoted(b, before, ip)
    requires after == match b.p.code[ip]
      case GetTable(_, t, _) => before[t := true]
      case SetTable(t, _, _) => if t in before then before else before[t := false]
      case _ => before
    ensures BuffersNoted(b, after, ip + 1)
  {
    hide IndexedBefore, ReadBefore, Loop.Visited;
    forall t: nat
      ensures t in after <==> IndexedBefore(b, t, ip + 1)
      ensures t in after ==> (after[t] <==> ReadBefore(b, t, ip + 1))
    {
      UsedNext(b, t, ip);
      ReadNext(b, t, ip);
      if ReadBefore(b, t, ip) {
        ReadIndexed(b, t, ip);
      }
    }
  }

  // ---------- The scan ----------

  /** The scan of a loop body, as it goes from pc to pc. */
  class Scan {
    const b: Loop
    const intLoop: bool
    const constOK: nat -> bool
    const intrinsic: nat -> Option<nat>
    var liveIn: seq<nat>
    var written: seq<nat>
    var calls: map<int, KernelCall>
    var buffers: map<nat, bool>
    var wrote: set<nat>   // in the body so far
    var used: set<nat>    // read or written as numbers
    var defined: set<nat>
    var seen: set<nat>

    function Base(): nat
      requires b.Valid() && b.p.code[b.latch].ForLoop?
    {
      b.p.code[b.latch].a
    }

    /** The registers, after the instructions before upTo and what the one there
        has read so far. */
    ghost predicate Registers(upTo: int, read: set<nat>)
      reads this`liveIn, this`written, this`wrote, this`used, this`defined, this`seen
    {
      && b.Valid() && b.start <= upTo <= b.latch && b.p.code[b.latch].ForLoop?
      && seen == used && defined <= seen
      && (forall r :: r in used <==> LoopRegister(Base(), r) || UsedBefore(b, r, upTo) || r in read)
      && (forall r :: r in wrote <==> WrittenBefore(b, r, upTo))
      && (forall r :: r in written <==> r in LoopWrites(Base(), intLoop) || WrittenBefore(b, r, upTo))
      && (forall r :: r in liveIn <==>
            LiveIn(b, Base(), r, upTo) || (r in read && !LoopRegister(Base(), r) && !UsedBefore(b, r, upTo)))
    }

    /** The scan has accepted the instructions before ip. */
    ghost predicate Accepted(ip: int)
      reads this
    {
      && Registers(ip, {})
      && CallsNoted(b, intrinsic, calls, ip) && BuffersNoted(b, buffers, ip)
      && (forall j :: b.start <= j < ip && b.Visited(j) ==> Scans(b, constOK, intrinsic, j))
    }

    constructor (b: Loop, intLoop: bool, constOK: nat -> bool, intrinsic: nat -> Option<nat>)
      requires b.Valid() && b.p.code[b.latch].ForLoop?
      ensures this.b == b && this.intLoop == intLoop && this.constOK == constOK && this.intrinsic == intrinsic
      ensures Accepted(b.start)
    {
      var base := b.p.code[b.latch].a;
      this.b, this.intLoop, this.constOK, this.intrinsic := b, intLoop, constOK, intrinsic;
      liveIn := [base, base + 1, base + 2];
      written := LoopWrites(base, intLoop);
      calls, buffers := map[], map[];
      wrote := {};
      used, seen := {base, base + 1, base + 2, base + 3}, {base, base + 1, base + 2, base + 3};
      defined := {base + 3};
    }

    predicate Number(k: nat) {
      constOK(k) && Constant(b.p, k).Number?()
    }

    /** The register a field is, if it is one. */
    function Register(field: RK): set<nat> {
      match field case R(r) => {r} case K(_) => {}
    }

    /** A field is read: a constant must be a number within reach, and a
        register not seen before comes from outside the iteration. */
    method Read(field: RK, ghost upTo: int, ghost read: set<nat>) returns (ok: bool)
      requires Registers(upTo, read)
      modifies this`liveIn, this`used, this`seen
      ensures Registers(upTo, read + Register(field))
      ensures ok <==> FieldWithin(b.p, constOK, field)
    {
      hide UsedBefore, WrittenBefore, EntersBefore;
      match field {
        case K(k) =>
          assert read + {} == read;
          return Number(k);
        case R(r) =>
          used := used + {r};
          if r !in seen {
            seen := seen + {r};
            if r !in defined {
              liveIn := liveIn + [r];
            }
          }
          return true;
      }
    }

    /** The instruction at ip, which has read its operands, writes r; where it may
        be skipped, r may keep its old value. */
    method Write(r: nat, ip: int, ghost read: set<nat>)
      requires Registers(ip, read) && ip < b.latch && b.Visited(ip) && Writes(b.p.code[ip]) == Some(r)
      requires forall q :: q in read <==> ReadsRegister(b.p.code[ip], q)
      modifies this`liveIn, this`written, this`wrote, this`used, this`defined, this`seen
      ensures Registers(ip + 1, {}) && written == old(written) + [r]
      ensures if r !in old(seen) && b.Skipped(ip) then liveIn == old(liveIn) + [r] else liveIn == old(liveIn)
    {
      hide UsedBefore, WrittenBefore, EntersBefore, Loop.Visited, Loop.Skipped, LoopRegister, LoopWrites, ReadsRegister;
      forall q: nat
        ensures UsedBefore(b, q, ip + 1) <==> UsedBefore(b, q, ip) || Uses(b.p.code[ip], q)
        ensures WrittenBefore(b, q, ip + 1) <==> WrittenBefore(b, q, ip) || Writes(b.p.code[ip]) == Some(q)
        ensures EntersBefore(b, q, ip + 1) <==> EntersBefore(b, q, ip) || EntersAt(b, q, ip)
      {
        UsedNext(b, q, ip);
      }
      wrote, used := wrote + {r}, used + {r};
      if r !in seen {
        seen := seen + {r};
        if b.Skipped(ip) {
          liveIn := liveIn + [r];
        } else {
          defined := defined + {r};
        }
      }
      written := written + [r];
    }

    /** An instruction that writes no number. */
    lemma NothingWritten(ip: int, read: set<nat>)
      requires Registers(ip, read) && ip < b.latch && b.Visited(ip) && Writes(b.p.code[ip]).None?
      requires forall q :: q in read <==> ReadsRegister(b.p.code[ip], q)
      ensures Registers(ip + 1, {})
    {
      hide UsedBefore, WrittenBefore, EntersBefore, Loop.Visited, Loop.Skipped, LoopRegister, LoopWrites, ReadsRegister;
      forall q: nat
        ensures UsedBefore(b, q, ip + 1) <==> UsedBefore(b, q, ip) || Uses(b.p.code[ip], q)
        ensures WrittenBefore(b, q, ip + 1) <==> WrittenBefore(b, q, ip) || Writes(b.p.code[ip]) == Some(q)
        ensures EntersBefore(b, q, ip + 1) <==> EntersBefore(b, q, ip) || EntersAt(b, q, ip)
      {
        UsedNext(b, q, ip);
      }
    }

    /** What the scan keeps when it has accepted the instruction at ip. */
    lemma AcceptedNext(ip: int)
      requires b.Valid() && b.start <= ip < b.latch && b.Visited(ip) && b.NextPc(ip) <= b.latch
      requires Registers(ip + 1, {}) && CallsNoted(b, intrinsic, calls, ip + 1) && BuffersNoted(b, buffers, ip + 1)
      requires forall j :: b.start <= j < ip && b.Visited(j) ==> Scans(b, constOK, intrinsic, j)
      requires Scans(b, constOK, intrinsic, ip)
      ensures Accepted(b.NextPc(ip))
    {
      hide Scans, Loop.Visited, UsedBefore, WrittenBefore, IndexedBefore, EntersBefore, ReadBefore, CallsNoted;
      if b.p.code[ip].Compare? {
        var jump, past := ip + 1, ip + 2;
        forall q: nat
          ensures UsedBefore(b, q, past) <==> UsedBefore(b, q, jump)
          ensures WrittenBefore(b, q, past) <==> WrittenBefore(b, q, jump)
          ensures IndexedBefore(b, q, past) <==> IndexedBefore(b, q, jump)
          ensures EntersBefore(b, q, past) <==> EntersBefore(b, q, jump)
          ensures ReadBefore(b, q, past) <==> ReadBefore(b, q, jump)
        {
          UsedPastJump(b, q, ip);
        }
        CallsPastJump(b, intrinsic, calls, ip);
        b.NotConsumed(ip);
      }
    }

    /** One instruction of the body: false if no kernel can hold it. */
    method ScanInstruction(ip: int) returns (ok: bool)
      requires b.Valid() && b.start <= ip < b.latch && b.Visited(ip) && Accepted(ip)
      modifies this
      ensures ok <==> Scans(b, constOK, intrinsic, ip)
      ensures ok ==> b.NextPc(ip) <= b.latch && Accepted(b.NextPc(ip))
    {
      hide Registers, CallsNoted, BuffersNoted, Scans, Loop.Visited, Loop.KernelJump, Loop.CallFrom;
      ok := Account(ip);
      if ok {
        ScansJump(b, constOK, intrinsic, ip);
        AcceptedNext(ip);
      }
    }

    /** Read the operands, write the result, and note calls and buffers. */
    method Account(ip: int) returns (ok: bool)
      requires b.Valid() && b.start <= ip < b.latch && b.Visited(ip) && Registers(ip, {})
      requires CallsNoted(b, intrinsic, calls, ip) && BuffersNoted(b, buffers, ip)
      modifies this
      ensures ok <==> Scans(b, constOK, intrinsic, ip)
      ensures ok ==> Registers(ip + 1, {}) && CallsNoted(b, intrinsic, calls, ip + 1) && BuffersNoted(b, buffers, ip + 1)
    {
      hide Registers, CallsNoted, BuffersNoted, Loop.Visited, Loop.KernelJump, Loop.CallFrom, NumberWithin, FedBefore;
      var i := b.p.code[ip];
      match i {
        case Compare(_, _, rb, rc) =>
          ok := Read2(rb, rc, ip);
          ok := ok && b.KernelJump(ip).Some?;
          if ok {
            NothingWritten(ip, Register(rb) + Register(rc));
          }
        case Jump(_, _) =>
          ok := b.KernelJump(ip).Some?;
          if ok {
            NothingWritten(ip, {});
          }
        case GetUpValue(a, n) =>
          ok := NoteCall(ip);
          if ok {
            NothingWritten(ip, {});
          }
        case GetTable(a, t, rc) =>
          ok := Read(rc, ip, {});
          if ok {
            Write(a, ip, {} + Register(rc));
          }
          buffers := buffers[t := true];
        case SetTable(t, rb, rc) =>
          ok := Read2(rb, rc, ip);
          if ok {
            NothingWritten(ip, Register(rb) + Register(rc));
          }
          if t !in buffers {
            buffers := buffers[t := false];
          }
        case _ =>
          ok := Compute(ip);
      }
      if !i.GetUpValue? {
        CallsNext(b, intrinsic, calls, ip);
      }
      BuffersNext(b, old(buffers), buffers, ip);
    }

    /** An instruction that only computes a number. */
    method Compute(ip: int) returns (ok: bool)
      requires b.Valid() && b.start <= ip < b.latch && b.Visited(ip) && Registers(ip, {}) && CallsNoted(b, intrinsic, calls, ip)
      requires var i := b.p.code[ip]; !i.Compare? && !i.Jump? && !i.GetUpValue? && !i.GetTable? && !i.SetTable?
      modifies this`liveIn, this`written, this`wrote, this`used, this`defined, this`seen
      ensures ok <==> Scans(b, constOK, intrinsic, ip)
      ensures ok ==> Registers(ip + 1, {})
    {
      hide Registers, CallsNoted, Loop.Visited, Loop.KernelJump, Loop.CallFrom, NumberWithin, FedBefore;
      match b.p.code[ip] {
        case Move(a, r) =>
          ok := Read(R(r), ip, {});
          if ok {
            Write(a, ip, {} + Register(R(r)));
          }
        case LoadConstant(a, bx) =>
          ok := Read(K(bx), ip, {});
          if ok {
            Write(a, ip, {} + Register(K(bx)));
          }
        case Arith(_, a, rb, rc) =>
          ok := Read2(rb, rc, ip);
          if ok {
            Write(a, ip, Register(rb) + Register(rc));
          }
        case DivMod(_, a, rb, rc) =>
          if !rc.K? || !KernelDivisor(Constant(b.p, rc.k)) {
            return false;
          }
          ok := Read2(rc, rb, ip);
          if ok {
            Write(a, ip, Register(rc) + Register(rb));
          }
        case UnaryMinus(a, r) =>
          ok := Read(R(r), ip, {});
          if ok {
            Write(a, ip, {} + Register(R(r)));
          }
        case Call(a, _, _) =>
          ok := Read(R(a + 1), ip, {});
          ok := ok && ip in calls;
          NotedFed(b, intrinsic, calls, ip, ip);
          if ok {
            Write(a, ip, {} + Register(R(a + 1)));
          }
        case _ =>
          return false;
      }
    }

    /** Both fields, and nothing of the second where the first is no number. */
    method Read2(rb: RK, rc: RK, ghost upTo: int) returns (ok: bool)
      requires Registers(upTo, {})
      modifies this`liveIn, this`used, this`seen
      ensures ok <==> FieldWithin(b.p, constOK, rb) && FieldWithin(b.p, constOK, rc)
      ensures ok ==> Registers(upTo, Register(rb) + Register(rc))
    {
      hide Registers, FieldWithin;
      ok := Read(rb, upTo, {});
      assert {} + Register(rb) == Register(rb);
      if ok {
        ok := Read(rc, upTo, Register(rb));
      }
    }

    /** A GETUPVAL of an intrinsic is noted for the CALL it feeds. */
    method NoteCall(ip: int) returns (ok: bool)
      requires b.Valid() && b.start <= ip < b.latch && b.Visited(ip) && b.p.code[ip].GetUpValue?
      requires CallsNoted(b, intrinsic, calls, ip)
      modifies this`calls
      ensures ok <==> Scans(b, constOK, intrinsic, ip)
      ensures CallsNoted(b, intrinsic, calls, ip + 1)
      ensures forall c :: c in old(calls) ==> c in calls && calls[c] == old(calls)[c]
    {
      hide CallsNoted, Loop.Visited, Loop.CallFrom;
      var call := b.IntrinsicCall(ip);
      var fn := intrinsic(b.p.code[ip].n);
      if call.None? || fn.None? {
        NothingNoted(b, intrinsic, calls, ip);
        return false;
      }
      NotYetFed(b, intrinsic, calls, ip, call.value);
      CallNoted(b, intrinsic, calls, ip, call.value);
      calls := calls[call.value := KernelCall(b.p.code[ip].n, fn.value)];
      return true;
    }
  }

  lemma ReadIndexed(b: Loop, t: nat, upTo: int)
    requires b.Valid() && upTo <= b.latch && ReadBefore(b, t, upTo)
    ensures IndexedBefore(b, t, upTo)
  {
    hide Loop.Visited;
    var j :| b.start <= j < upTo && b.Visited(j) && b.p.code[j].GetTable? && b.p.code[j].b == t;
    assert Indexes(b.p.code[j], t);
  }

  /** Buffers live in registers that the loop never writes, that hold no
      numbers, and that the function makes no table in. */
  method BuffersApart(scan: Scan) returns (ok: bool)
    ensures ok <==> forall t :: t in scan.buffers ==> t !in scan.used && t !in scan.wrote && NewTable(t) !in scan.b.p.code
  {
    var ts := scan.buffers.Keys;
    while ts != {}
      invariant ts <= scan.buffers.Keys
      invariant forall t :: t in scan.buffers && t !in ts ==>
                  t !in scan.used && t !in scan.wrote && NewTable(t) !in scan.b.p.code
      decreases |ts|
    {
      var t :| t in ts;
      ts := ts - {t};
      if t in scan.used || t in scan.wrote {
        return false;
      }
      var n := 0;
      while n < |scan.b.p.code|
        invariant 0 <= n <= |scan.b.p.code|
        invariant forall k :: 0 <= k < n ==> scan.b.p.code[k] != NewTable(t)
      {
        if scan.b.p.code[n] == NewTable(t) {
          return false;
        }
        n := n + 1;
      }
    }
    return true;
  }

  /** Adds to the live-in registers the written ones below the loop's. */
  method SideExitLiveIns(liveIn: seq<nat>, written: seq<nat>, base: nat) returns (all: seq<nat>)
    ensures forall r :: r in liveIn ==> r in all
    ensures forall r :: r in all ==> r in liveIn || (r in written && r < base)
    ensures forall r :: r in written && r < base ==> r in all
  {
    all := liveIn;
    var n := 0;
    while n < |written|
      invariant 0 <= n <= |written|
      invariant forall r :: r in liveIn ==> r in all
      invariant forall r :: r in all ==> r in liveIn || (r in written && r < base)
      invariant forall k :: 0 <= k < n && written[k] < base ==> written[k] in all
    {
      if written[n] < base && written[n] !in all {
        all := all + [written[n]];
      }
      n := n + 1;
    }
  }

  /** The scan of a whole body: None just where the loop does not qualify. */
  method ScanBody(b: Loop, intLoop: bool, constOK: nat -> bool, intrinsic: nat -> Option<nat>) returns (found: Option<Found>)
    requires b.Valid() && b.p.code[b.latch].ForLoop?
    ensures found.Some? <==> Scannable(b, constOK, intrinsic)
    ensures found.Some? ==> FoundIn(b, intrinsic, intLoop, found.value) && Scanned(b, intrinsic, intLoop, found.value)
  {
    hide *;
    var scan := new Scan(b, intLoop, constOK, intrinsic);
    var ip := b.start;
    ValidBounds(b);
    b.StartVisited();
    while ip < b.latch
      invariant b.start <= ip <= b.latch && b.Visited(ip) && scan.Accepted(ip)
      invariant scan.b == b && scan.intLoop == intLoop && scan.constOK == constOK && scan.intrinsic == intrinsic && fresh(scan)
    {
      var ok := scan.ScanInstruction(ip);
      if !ok {
        NotScannable(b, constOK, intrinsic, ip);
        return None;
      }
      NextVisited(b, ip);
      ip := b.NextPc(ip);
    }
    var ok := BuffersApart(scan);
    ApartExact(scan, ok);
    if !ok {
      return None;
    }
    var liveIn := scan.liveIn;
    if scan.calls != map[] || scan.buffers != map[] {
      liveIn := SideExitLiveIns(liveIn, scan.written, b.p.code[b.latch].a);
    }
    var result := Found(liveIn, scan.written, scan.calls, scan.buffers);
    ScanEnd(scan, result);
    FoundScanned(b, constOK, intrinsic, intLoop, result);
    return Some(result);
  }

  lemma NotScannable(b: Loop, constOK: nat -> bool, intrinsic: nat -> Option<nat>, ip: int)
    requires b.Valid() && b.start <= ip < b.latch && b.Visited(ip) && !Scans(b, constOK, intrinsic, ip)
    ensures !Scannable(b, constOK, intrinsic)
  {
    hide Scans, Loop.Visited;
  }

  /** The buffers' check decides. */
  lemma ApartExact(scan: Scan, ok: bool)
    requires scan.b.Valid() && scan.Accepted(scan.b.latch)
    requires ok <==> forall t :: t in scan.buffers ==> t !in scan.used && t !in scan.wrote && NewTable(t) !in scan.b.p.code
    ensures ok <==> Scannable(scan.b, scan.constOK, scan.intrinsic)
  {
    hide Scans, Loop.Visited, UsedBefore, IndexedBefore, WrittenBefore, EntersBefore, ReadBefore, CallsNoted;
    forall t | t in scan.wrote
      ensures t in scan.used
    {
      WrittenUsed(scan.b, t, scan.b.latch);
    }
    forall t | IndexedBefore(scan.b, t, scan.b.latch)
      ensures Apart(scan.b, t) <==> t !in scan.used && NewTable(t) !in scan.b.p.code
    {
    }
  }

  /** The end of the scan, with the side exits' live-ins added. */
  lemma ScanEnd(scan: Scan, found: Found)
    requires scan.b.Valid() && scan.Accepted(scan.b.latch)
    requires found.written == scan.written && found.calls == scan.calls && found.buffers == scan.buffers
    requires
      if found.calls != map[] || found.buffers != map[] then
        && (forall r :: r in scan.liveIn ==> r in found.liveIn)
        && (forall r :: r in found.liveIn ==> r in scan.liveIn || (r in scan.written && r < scan.b.p.code[scan.b.latch].a))
        && (forall r :: r in scan.written && r < scan.b.p.code[scan.b.latch].a ==> r in found.liveIn)
      else found.liveIn == scan.liveIn
    ensures FoundIn(scan.b, scan.intrinsic, scan.intLoop, found)
  {
    hide Scans, Loop.Visited, UsedBefore, IndexedBefore, WrittenBefore, EntersBefore, ReadBefore, CallsNoted, LiveIn;
  }

  lemma ValidBounds(b: Loop)
    requires b.Valid()
    ensures 0 <= b.start <= b.latch < |b.p.code|
  {
  }

  lemma NextVisited(b: Loop, ip: int)
    requires b.Valid() && b.start <= ip < b.latch && b.Visited(ip) && b.NextPc(ip) <= b.latch
    ensures b.start <= b.NextPc(ip) && b.Visited(b.NextPc(ip)) && ip < b.NextPc(ip)
  {
  }
}
