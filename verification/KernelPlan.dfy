/** Which numeric loops qualify as kernels: the planner that types every
    register at every pc and gives each register and type a machine register. */
module KernelPlan {
  import opened Wrappers
  import opened Bytecode
  import opened KernelFlow
  import opened KernelTypes
  import opened KernelScan

  // ---------- Plans ----------

  /** A register and a kind: what machine registers are given to. */
  datatype KSlot = KSlot(r: nat, t: Kind)

  /** What the planner makes of an accepted loop. */
  datatype Plan = Plan(
    b: Loop,
    intLoop: bool,
    found: Found,
    types: Types,
    flow: Flow,
    slots: map<KSlot, nat>)
  {
    /** The first of the FORLOOP's four registers. */
    function Base(): nat
      requires b.Valid() && b.p.code[b.latch].ForLoop?
    {
      b.p.code[b.latch].a
    }
  }

  /** A plan whose types flow and whose every register and type has its own
      machine register. */
  ghost predicate Planned(plan: Plan) {
    var b := plan.b;
    && b.Valid() && b.p.code[b.latch].ForLoop?
    && var base := plan.Base();
    && (forall r :: r in plan.types <==> LoopRegister(base, r) || r in plan.found.liveIn)
    && (forall r :: LoopRegister(base, r) ==> plan.types[r] == if plan.intLoop then IntKind else FloatKind)
    && Undecided(plan.types) == {}
    && plan.flow.From(b, plan.types)
    && EndsAsItStarts(b, plan.flow, plan.types, plan.found.written)
    && AllRun(b, plan.flow, b.latch)
    && Slotted(plan)
  }

  ghost predicate Slotted(plan: Plan)
    requires plan.b.Valid()
  {
    && EntrySlots(plan.slots, plan.types)
    && ResultSlots(plan.slots, plan.b, plan.flow.results, plan.b.latch)
    && Separate(plan.slots)
  }

  /** Two registers of one class never share a machine register. */
  ghost predicate Separate(slots: map<KSlot, nat>) {
    && (forall s, s' :: s in slots && s' in slots && s != s' && (s.t == IntKind <==> s'.t == IntKind) ==> slots[s] != slots[s'])
  }

  // ---------- Which loops are accepted ----------

  /** The types that planning starts from: the loop's registers are of its kind, the
      other live-in ones open. */
  function EntryOf(liveIn: seq<nat>, base: nat, intLoop: bool): Types {
    map r | r in {base, base + 1, base + 2, base + 3} + (set q | q in liveIn) ::
      if !LoopRegister(base, r) then AnyKind else if intLoop then IntKind else FloatKind
  }

  /** A typing of b, and its flow. */
  ghost predicate Typing(b: Loop, intrinsic: nat -> Option<nat>, intLoop: bool, t: Types, g: Flow) {
    exists found :: FoundIn(b, intrinsic, intLoop, found) && TypingOf(b, intLoop, found, t, g)
  }

  ghost predicate TypingOf(b: Loop, intLoop: bool, found: Found, t: Types, g: Flow)
    requires b.Valid() && b.p.code[b.latch].ForLoop?
  {
    Works(b, EntryOf(found.liveIn, b.p.code[b.latch].a, intLoop), found.written, t, g)
  }

  /** r was guessed, as nothing in b decides its type. */
  ghost predicate GuessedIn(b: Loop, intrinsic: nat -> Option<nat>, intLoop: bool, r: nat, k: Kind) {
    exists found :: FoundIn(b, intrinsic, intLoop, found) && Guessed(b, EntryOf(found.liveIn, b.p.code[b.latch].a, intLoop), r, k)
  }

  /** A register that holds a type on entry, or after some instruction. */
  ghost predicate Needs(b: Loop, types: Types, results: map<int, Kind>, s: KSlot)
    requires b.Valid()
  {
    NeedsOnEntry(types, s) || NeedsAfter(b, results, s, b.latch)
  }

  ghost predicate NeedsOnEntry(types: Types, s: KSlot) {
    s.r in types && types[s.r] == s.t
  }

  ghost predicate NeedsAfter(b: Loop, results: map<int, Kind>, s: KSlot, upTo: int)
    requires b.Valid() && upTo <= b.latch
  {
    exists ip :: b.start <= ip < upTo && ip in results && Writes(b.p.code[ip]) == Some(s.r) && results[ip] == s.t
  }

  /** More than max of them are of one class. */
  ghost predicate NeedsMore(b: Loop, types: Types, results: map<int, Kind>, ints: bool, max: nat)
    requires b.Valid()
  {
    exists need: set<KSlot> :: |need| > max && AllNeeded(b, types, results, need, ints)
  }

  ghost predicate AllNeeded(b: Loop, types: Types, results: map<int, Kind>, need: set<KSlot>, ints: bool)
    requires b.Valid()
  {
    forall s :: s in need ==> Needs(b, types, results, s) && (s.t == IntKind) == ints
  }

  /** There are machine registers for all. */
  ghost predicate Enough(b: Loop, types: Types, results: map<int, Kind>, maxFloats: nat, maxInts: nat)
    requires b.Valid()
  {
    !NeedsMore(b, types, results, false, maxFloats) && !NeedsMore(b, types, results, true, maxInts)
  }

  /** The body can be scanned, and has a typing with these guesses and few enough
      registers. */
  ghost predicate Qualifies(b: Loop, constOK: nat -> bool, intrinsic: nat -> Option<nat>, intLoop: bool, guesses: Types,
                            maxFloats: nat, maxInts: nat)
  {
    && Scannable(b, constOK, intrinsic)
    && exists t, g: Flow :: Typing(b, intrinsic, intLoop, t, g) && Follows(guesses, t) && Enough(b, t, g.results, maxFloats, maxInts)
  }

  /** What is found determines where planning starts and what is written. */
  lemma SameFound(b: Loop, intrinsic: nat -> Option<nat>, intLoop: bool, f: Found, g: Found, t: Types, flow: Flow)
    requires FoundIn(b, intrinsic, intLoop, f) && FoundIn(b, intrinsic, intLoop, g)
    ensures TypingOf(b, intLoop, f, t, flow) ==> TypingOf(b, intLoop, g, t, flow)
  {
    hide LiveIn, WrittenBefore, Flow.From, Flow.Clashes, AllRun, Refines;
    SameLeaves(b, intrinsic, intLoop, f, g);
    SameLeaves(b, intrinsic, intLoop, g, f);
    SameEntry(f.liveIn, g.liveIn, b.p.code[b.latch].a, intLoop);
  }

  lemma SameEntry(l: seq<nat>, m: seq<nat>, base: nat, intLoop: bool)
    requires forall r :: r in l <==> r in m
    ensures EntryOf(l, base, intLoop) == EntryOf(m, base, intLoop)
  {
    assert (set q | q in l) == (set q | q in m);
  }

  lemma SameLeaves(b: Loop, intrinsic: nat -> Option<nat>, intLoop: bool, f: Found, g: Found)
    requires FoundIn(b, intrinsic, intLoop, f) && FoundIn(b, intrinsic, intLoop, g)
    ensures f.Leaves() ==> g.Leaves()
  {
    hide LiveIn, WrittenBefore, IndexedBefore, FedBefore, CallsNoted;
    if f.calls != map[] {
      assert (forall c :: c !in f.calls) ==> f.calls == map[];
      var c :| c in f.calls;
      NotedFed(b, intrinsic, f.calls, c, b.latch);
      NotedFed(b, intrinsic, g.calls, c, b.latch);
    } else if f.buffers != map[] {
      assert f.buffers.Keys == {} ==> f.buffers == map[];
      var t :| t in f.buffers.Keys;
      assert t in g.buffers;
    }
  }

  // ---------- Planning ----------

  /** The types on entry: the loop's registers are of its kind, the other
      live-in ones open. */
  method EntryTypes(liveIn: seq<nat>, base: nat, intLoop: bool) returns (types: Types)
    ensures forall r :: r in types <==> LoopRegister(base, r) || r in liveIn
    ensures forall r :: r in types ==> types[r] == if !LoopRegister(base, r) then AnyKind else if intLoop then IntKind else FloatKind
    ensures types == EntryOf(liveIn, base, intLoop)
  {
    var kind := if intLoop then IntKind else FloatKind;
    types := map[base := kind, base + 1 := kind, base + 2 := kind, base + 3 := kind];
    var n := 0;
    while n < |liveIn|
      invariant 0 <= n <= |liveIn|
      invariant forall r :: r in types <==> LoopRegister(base, r) || r in liveIn[..n]
      invariant forall r :: r in types ==> types[r] == if !LoopRegister(base, r) then AnyKind else kind
    {
      if liveIn[n] !in types {
        types := types[liveIn[n] := AnyKind];
      }
      n := n + 1;
    }
    assert liveIn[..n] == liveIn;
  }

  /** The machine registers given out so far, by class. */
  datatype Slots = Slots(of: map<KSlot, nat>, floats: nat, ints: nat)
  {
    ghost predicate Dense() {
      && Separate(of)
      && (forall s :: s in of ==> of[s] < if s.t == IntKind then ints else floats)
      && floats == |OfClass(false)| && ints == |OfClass(true)|
    }

    ghost function OfClass(ints: bool): set<KSlot> {
      ClassOf(of, ints)
    }

    /** A machine register for r as a t, if it has none. */
    function Assign(r: nat, t: Kind): (r': Slots)
      ensures forall s :: s in r'.of <==> s in of || s == KSlot(r, t)
      ensures forall s :: s in of ==> r'.of[s] == of[s]
    {
      var s := KSlot(r, t);
      if s in of then this
      else if t == IntKind then Slots(of[s := ints], floats, ints + 1)
      else Slots(of[s := floats], floats + 1, ints)
    }

    lemma AssignDense(r: nat, t: Kind)
      requires Dense()
      ensures Assign(r, t).Dense()
    {
      var s, r' := KSlot(r, t), Assign(r, t);
      if s !in of {
        Counted(of, s, if t == IntKind then ints else floats);
        AddsSeparate(s);
      }
    }

    lemma AddsSeparate(s: KSlot)
      requires s !in of && Separate(of) && forall q :: q in of ==> of[q] < if q.t == IntKind then ints else floats
      ensures Separate(Assign(s.r, s.t).of)
    {
    }
  }

  /** The registers and types that have an integer, or a float, machine register. */
  function ClassOf(of: map<KSlot, nat>, ints: bool): set<KSlot> {
    set s | s in of && (s.t == IntKind) == ints
  }

  lemma Counted(of: map<KSlot, nat>, s: KSlot, n: nat)
    requires s !in of
    ensures |ClassOf(of[s := n], s.t == IntKind)| == |ClassOf(of, s.t == IntKind)| + 1
    ensures |ClassOf(of[s := n], s.t != IntKind)| == |ClassOf(of, s.t != IntKind)|
  {
    assert ClassOf(of[s := n], s.t == IntKind) == ClassOf(of, s.t == IntKind) + {s};
    assert ClassOf(of[s := n], s.t != IntKind) == ClassOf(of, s.t != IntKind);
  }

  /** Every register has a machine register for its type on entry. */
  ghost predicate EntrySlots(slots: map<KSlot, nat>, types: Types) {
    forall r :: r in types ==> KSlot(r, types[r]) in slots
  }

  /** So does every result before upTo. */
  ghost predicate ResultSlots(slots: map<KSlot, nat>, b: Loop, results: map<int, Kind>, upTo: int)
    requires b.Valid() && upTo <= b.latch
  {
    forall ip :: b.start <= ip < upTo && ip in results && Writes(b.p.code[ip]).Some? ==>
      KSlot(Writes(b.p.code[ip]).value, results[ip]) in slots
  }

  /** Machine registers for the loop's and the live-in registers at their types on
      entry, */
  method AssignEntry(liveIn: seq<nat>, types: Types, base: nat) returns (slots: Slots)
    requires forall r :: r in types <==> LoopRegister(base, r) || r in liveIn
    ensures slots.Dense() && forall s :: s in slots.of <==> NeedsOnEntry(types, s)
  {
    hide Slots.Dense;
    EmptyDense();
    slots := AssignAll(Slots(map[], 0, 0), [base, base + 1, base + 2, base + 3], types);
    slots := AssignAll(slots, liveIn, types);
  }

  method AssignAll(entry: Slots, rs: seq<nat>, types: Types) returns (slots: Slots)
    requires entry.Dense() && forall r :: r in rs ==> r in types
    ensures slots.Dense() && forall s :: s in slots.of <==> s in entry.of || (s.r in rs && types[s.r] == s.t)
  {
    hide Slots.Dense, Slots.Assign;
    slots := entry;
    for n := 0 to |rs|
      invariant slots.Dense() && forall s :: s in slots.of <==> s in entry.of || (s.r in rs[..n] && types[s.r] == s.t)
    {
      assert rs[n] in rs && rs[..n + 1] == rs[..n] + [rs[n]];
      slots.AssignDense(rs[n], types[rs[n]]);
      slots := slots.Assign(rs[n], types[rs[n]]);
    }
    assert rs[..|rs|] == rs;
  }

  lemma EmptyDense()
    ensures Slots(map[], 0, 0).Dense()
  {
  }

  /** and for what the body's instructions write. */
  method AssignResults(b: Loop, entry: Slots, results: map<int, Kind>) returns (slots: Slots)
    requires b.Valid() && entry.Dense()
    ensures slots.Dense() && forall s :: s in slots.of <==> s in entry.of || NeedsAfter(b, results, s, b.latch)
    ensures forall s :: s in entry.of ==> slots.of[s] == entry.of[s]
  {
    hide Slots.Dense, Slots.Assign;
    slots := entry;
    for ip := b.start to b.latch
      invariant slots.Dense() && forall s :: s in slots.of <==> s in entry.of || NeedsAfter(b, results, s, ip)
      invariant forall s :: s in entry.of ==> slots.of[s] == entry.of[s]
    {
      ghost var before := slots;
      if ip in results && Writes(b.p.code[ip]).Some? {
        slots.AssignDense(Writes(b.p.code[ip]).value, results[ip]);
        slots := slots.Assign(Writes(b.p.code[ip]).value, results[ip]);
      }
      NeedsNext(b, results, before.of, slots.of, entry.of, ip);
    }
  }

  lemma NeedsNext(b: Loop, results: map<int, Kind>, before: map<KSlot, nat>, after: map<KSlot, nat>, entry: map<KSlot, nat>, ip: int)
    requires b.Valid() && b.start <= ip < b.latch && forall s :: s in before <==> s in entry || NeedsAfter(b, results, s, ip)
    requires
      if ip in results && Writes(b.p.code[ip]).Some? then
        forall s :: s in after <==> s in before || s == KSlot(Writes(b.p.code[ip]).value, results[ip])
      else after == before
    ensures forall s :: s in after <==> s in entry || NeedsAfter(b, results, s, ip + 1)
  {
  }

  /** The machine registers given out tell whether there are enough. */
  lemma EnoughExact(b: Loop, types: Types, results: map<int, Kind>, slots: Slots, ints: bool, max: nat)
    requires b.Valid() && slots.Dense() && forall s :: s in slots.of <==> Needs(b, types, results, s)
    ensures (if ints then slots.ints else slots.floats) > max <==> NeedsMore(b, types, results, ints, max)
  {
    hide Needs;
    var all := slots.OfClass(ints);
    if |all| > max {
      assert AllNeeded(b, types, results, all, ints);
    }
    if NeedsMore(b, types, results, ints, max) {
      var need: set<KSlot> :| |need| > max && AllNeeded(b, types, results, need, ints);
      FewerOrEqual(need, all);
    }
  }

  lemma FewerOrEqual(a: set<KSlot>, b: set<KSlot>)
    requires forall s :: s in a ==> s in b
    ensures |a| <= |b|
  {
    assert b == a + (b - a);
  }

  lemma SlotsNeeded(b: Loop, types: Types, results: map<int, Kind>, slots: map<KSlot, nat>)
    requires b.Valid() && forall s :: s in slots <==> Needs(b, types, results, s)
    ensures EntrySlots(slots, types) && ResultSlots(slots, b, results, b.latch)
  {
    forall r | r in types
      ensures KSlot(r, types[r]) in slots
    {
      assert NeedsOnEntry(types, KSlot(r, types[r]));
    }
    forall ip | b.start <= ip < b.latch && ip in results && Writes(b.p.code[ip]).Some?
      ensures KSlot(Writes(b.p.code[ip]).value, results[ip]) in slots
    {
      assert NeedsAfter(b, results, KSlot(Writes(b.p.code[ip]).value, results[ip]), b.latch);
    }
  }

  /** Scans and types a loop's body. It has a plan just where the loop qualifies with
      the guesses made; the plan is Scanned and Planned, stays within the machine
      registers there are, and has the only typing that has those guesses. */
  method PlanKernel(p: Proto, latch: int, intLoop: bool, maxFloats: nat, maxInts: nat,
                    constOK: nat -> bool, intrinsic: nat -> Option<nat>)
    returns (plan: Option<Plan>, ghost guesses: Types)
    requires 0 <= latch < |p.code| && p.code[latch].ForLoop? && 0 <= latch + 1 + p.code[latch].sbx
    ensures plan.Some? ==>
      plan.value.b == Loop(p, latch + 1 + p.code[latch].sbx, latch) && PlanGood(plan.value, intrinsic, intLoop, maxFloats, maxInts)
    ensures plan.Some? ==> OnlyTypingIs(plan.value, intrinsic, guesses)
    ensures
      var b := Loop(p, latch + 1 + p.code[latch].sbx, latch);
      && (plan.Some? <==> Qualifies(b, constOK, intrinsic, intLoop, guesses, maxFloats, maxInts))
      && (forall r :: r in guesses ==> GuessedIn(b, intrinsic, intLoop, r, guesses[r]))
  {
    hide *;
    var start := latch + 1 + p.code[latch].sbx;
    guesses := map[];
    if start > latch {
      NoLoop(Loop(p, start, latch), constOK, intrinsic, intLoop, guesses, maxFloats, maxInts);
      return None, guesses;
    }
    var b := Loop(p, start, latch);
    ValidLoop(p, start, latch);
    var found := ScanBody(b, intLoop, constOK, intrinsic);
    if found.None? {
      Unscannable(b, constOK, intrinsic, intLoop, guesses, maxFloats, maxInts);
      return None, guesses;
    }
    ScannedJumps(b, intrinsic, intLoop, found.value);
    plan, guesses := TypeBody(b, intLoop, found.value, maxFloats, maxInts);
    PlanExact(b, constOK, intrinsic, intLoop, found.value, plan, guesses, maxFloats, maxInts);
  }

  /** What a plan promises. */
  ghost predicate PlanGood(plan: Plan, intrinsic: nat -> Option<nat>, intLoop: bool, maxFloats: nat, maxInts: nat) {
    && plan.intLoop == intLoop && FoundIn(plan.b, intrinsic, intLoop, plan.found)
    && Scanned(plan.b, intrinsic, intLoop, plan.found) && Planned(plan)
    && (forall s :: s in plan.slots ==> plan.slots[s] < if s.t == IntKind then maxInts else maxFloats)
  }

  /** No other typing has the guesses. */
  ghost predicate OnlyTypingIs(plan: Plan, intrinsic: nat -> Option<nat>, guesses: Types) {
    && Follows(guesses, plan.types)
    && forall t, g: Flow :: Typing(plan.b, intrinsic, plan.intLoop, t, g) && Follows(guesses, t) ==> t == plan.types
  }

  lemma NoLoop(b: Loop, constOK: nat -> bool, intrinsic: nat -> Option<nat>, intLoop: bool, guesses: Types, maxFloats: nat, maxInts: nat)
    requires b.start > b.latch
    ensures !Qualifies(b, constOK, intrinsic, intLoop, guesses, maxFloats, maxInts)
  {
  }

  lemma Unscannable(b: Loop, constOK: nat -> bool, intrinsic: nat -> Option<nat>, intLoop: bool, guesses: Types, maxFloats: nat,
                    maxInts: nat)
    requires !Scannable(b, constOK, intrinsic)
    ensures !Qualifies(b, constOK, intrinsic, intLoop, guesses, maxFloats, maxInts)
  {
    hide Scannable;
  }

  /** What typing the body says of found holds of the body. */
  lemma PlanExact(b: Loop, constOK: nat -> bool, intrinsic: nat -> Option<nat>, intLoop: bool, found: Found, plan: Option<Plan>,
                  guesses: Types, maxFloats: nat, maxInts: nat)
    requires Scannable(b, constOK, intrinsic) && FoundIn(b, intrinsic, intLoop, found) && Scanned(b, intrinsic, intLoop, found)
    requires plan.Some? ==> plan.value.b == b && plan.value.intLoop == intLoop && plan.value.found == found && Planned(plan.value)
    requires plan.Some? ==>
      (forall s :: s in plan.value.slots ==> plan.value.slots[s] < if s.t == IntKind then maxInts else maxFloats)
    requires TypesExact(b, intLoop, found, plan, guesses, maxFloats, maxInts)
    requires forall r :: r in guesses ==> Guessed(b, EntryOf(found.liveIn, b.p.code[b.latch].a, intLoop), r, guesses[r])
    ensures plan.Some? <==> Qualifies(b, constOK, intrinsic, intLoop, guesses, maxFloats, maxInts)
    ensures plan.Some? ==> PlanGood(plan.value, intrinsic, intLoop, maxFloats, maxInts)
    ensures plan.Some? ==> OnlyTypingIs(plan.value, intrinsic, guesses)
    ensures forall r :: r in guesses ==> GuessedIn(b, intrinsic, intLoop, r, guesses[r])
  {
    hide Scannable, FoundIn, Scanned, Planned, Guessed, TypingOf, Follows, Enough;
    FoundValid(b, intrinsic, intLoop, found);
    forall t, g: Flow | Typing(b, intrinsic, intLoop, t, g)
      ensures TypingOf(b, intLoop, found, t, g)
    {
      var other :| FoundIn(b, intrinsic, intLoop, other) && TypingOf(b, intLoop, other, t, g);
      SameFound(b, intrinsic, intLoop, other, found, t, g);
    }
    forall t, g: Flow | TypingOf(b, intLoop, found, t, g)
      ensures Typing(b, intrinsic, intLoop, t, g)
    {
    }
  }

  lemma FoundValid(b: Loop, intrinsic: nat -> Option<nat>, intLoop: bool, found: Found)
    requires FoundIn(b, intrinsic, intLoop, found)
    ensures b.Valid() && b.p.code[b.latch].ForLoop?
  {
  }

  /** There is a plan just where a typing with the guesses has few enough registers,
      and then there is no other. */
  ghost predicate TypesExact(b: Loop, intLoop: bool, found: Found, plan: Option<Plan>, guesses: Types, maxFloats: nat, maxInts: nat)
    requires b.Valid() && b.p.code[b.latch].ForLoop?
  {
    && (plan.Some? ==>
          && TypingOf(b, intLoop, found, plan.value.types, plan.value.flow) && Follows(guesses, plan.value.types)
          && Enough(b, plan.value.types, plan.value.flow.results, maxFloats, maxInts))
    && (forall t, g: Flow :: TypingOf(b, intLoop, found, t, g) && Follows(guesses, t) ==>
          && (plan.Some? <==> Enough(b, t, g.results, maxFloats, maxInts))
          && (plan.Some? ==> t == plan.value.types))
  }

  /** The plan for a scanned body, or None if its types do not work out or it
      needs too many machine registers. */
  method TypeBody(b: Loop, intLoop: bool, found: Found, maxFloats: nat, maxInts: nat) returns (plan: Option<Plan>, ghost guesses: Types)
    requires JumpsStay(b) && b.Valid() && b.p.code[b.latch].ForLoop? && ListsWritten(b, found.written)
    ensures plan.Some? ==>
      && plan.value.b == b && plan.value.intLoop == intLoop && plan.value.found == found
      && Planned(plan.value)
      && (forall s :: s in plan.value.slots ==> plan.value.slots[s] < if s.t == IntKind then maxInts else maxFloats)
    ensures TypesExact(b, intLoop, found, plan, guesses, maxFloats, maxInts)
    ensures forall r :: r in guesses ==> Guessed(b, EntryOf(found.liveIn, b.p.code[b.latch].a, intLoop), r, guesses[r])
  {
    hide *;
    ValidBounds(b);
    var base := b.p.code[b.latch].a;
    var types := EntryTypes(found.liveIn, base, intLoop);
    var flow: Flow;
    var ok: bool;
    OpenTypes(types, found.liveIn, base);
    ghost var entry := types;
    types, flow, ok, guesses := InferTypes(b, types, found.liveIn, found.written);
    if !ok {
      NoTypes(b, intLoop, found, guesses, maxFloats, maxInts);
      return None, guesses;
    }
    LoopTypesKept(entry, types, found.liveIn, base, intLoop);
    var slots := AssignEntry(found.liveIn, types, base);
    slots := AssignResults(b, slots, flow.results);
    SlotsExact(b, types, flow.results, slots);
    SlotsSuffice(b, intLoop, found, types, flow, guesses, slots, maxFloats, maxInts);
    if slots.floats > maxFloats || slots.ints > maxInts {
      return None, guesses;
    }
    var result := Plan(b, intLoop, found, types, flow, slots.of);
    SlotsNeeded(b, types, flow.results, slots.of);
    PlanEnd(result, slots, maxFloats, maxInts);
    return Some(result), guesses;
  }

  lemma NoTypes(b: Loop, intLoop: bool, found: Found, guesses: Types, maxFloats: nat, maxInts: nat)
    requires b.Valid() && b.p.code[b.latch].ForLoop?
    requires forall t, g: Flow ::
      Works(b, EntryOf(found.liveIn, b.p.code[b.latch].a, intLoop), found.written, t, g) ==> !Follows(guesses, t)
    ensures TypesExact(b, intLoop, found, None, guesses, maxFloats, maxInts)
  {
    hide Works, Follows, Enough;
  }

  lemma SlotsExact(b: Loop, types: Types, results: map<int, Kind>, slots: Slots)
    requires b.Valid() && forall s :: s in slots.of <==> NeedsOnEntry(types, s) || NeedsAfter(b, results, s, b.latch)
    ensures forall s :: s in slots.of <==> Needs(b, types, results, s)
  {
  }

  /** Whether the machine registers suffice depends on the typing alone. */
  lemma SlotsSuffice(b: Loop, intLoop: bool, found: Found, types: Types, flow: Flow, guesses: Types, slots: Slots, maxFloats: nat,
                     maxInts: nat)
    requires b.Valid() && b.p.code[b.latch].ForLoop? && JumpsStay(b)
    requires Works(b, EntryOf(found.liveIn, b.p.code[b.latch].a, intLoop), found.written, types, flow) && Follows(guesses, types)
    requires forall t, g: Flow ::
      Works(b, EntryOf(found.liveIn, b.p.code[b.latch].a, intLoop), found.written, t, g) && Follows(guesses, t) ==> types == t
    requires slots.Dense() && forall s :: s in slots.of <==> Needs(b, types, flow.results, s)
    ensures
      var plan := if slots.floats > maxFloats || slots.ints > maxInts then None else Some(Plan(b, intLoop, found, types, flow, slots.of));
      TypesExact(b, intLoop, found, plan, guesses, maxFloats, maxInts)
  {
    hide Works, Follows, Needs, NeedsMore, Slots.Dense, JumpsStay;
    EnoughExact(b, types, flow.results, slots, false, maxFloats);
    EnoughExact(b, types, flow.results, slots, true, maxInts);
    forall t, g: Flow | TypingOf(b, intLoop, found, t, g) && Follows(guesses, t)
      ensures types == t && g.results == flow.results
    {
      ResultsUnique(b, EntryOf(found.liveIn, b.p.code[b.latch].a, intLoop), found.written, t, flow, g);
    }
  }

  lemma ResultsUnique(b: Loop, entry: Types, written: seq<nat>, t: Types, f: Flow, g: Flow)
    requires Works(b, entry, written, t, f) && Works(b, entry, written, t, g)
    ensures f.results == g.results
  {
    hide Loop.Visited, Flow.Merged, Flow.Clashes, Result, AllRun, EndsAsItStarts;
    forall ip | b.start <= ip < b.latch && b.Visited(ip) && Writes(b.p.code[ip]).Some?
      ensures ip in f.results && ip in g.results && f.results[ip] == g.results[ip]
    {
      FlowUnique(b, f, g, t, ip);
    }
    assert forall ip :: ip in f.results <==> ip in g.results;
    assert forall ip :: ip in f.results ==> f.results[ip] == g.results[ip];
  }

  lemma ValidLoop(p: Proto, start: int, latch: int)
    requires 0 <= start <= latch < |p.code|
    ensures Loop(p, start, latch).Valid()
  {
  }

  lemma ScannedJumps(b: Loop, intrinsic: nat -> Option<nat>, intLoop: bool, found: Found)
    requires Scanned(b, intrinsic, intLoop, found)
    ensures JumpsStay(b) && ListsWritten(b, found.written)
  {
    hide Loop.Visited, Loop.KernelJump, Loop.CallFrom, CallsFed, SurelyWritten;
    forall ip | b.start <= ip < b.latch && b.Visited(ip) && Writes(b.p.code[ip]).Some?
      ensures Writes(b.p.code[ip]).value in found.written
    {
      assert Accounted(b, intrinsic, found, ip);
    }
  }

  lemma OpenTypes(types: Types, liveIn: seq<nat>, base: nat)
    requires forall r :: r in types <==> LoopRegister(base, r) || r in liveIn
    requires forall r :: r in types && LoopRegister(base, r) ==> types[r] != AnyKind
    ensures forall r :: r in Undecided(types) ==> r in liveIn
    ensures forall r :: r in liveIn ==> r in types
  {
  }

  lemma LoopTypesKept(entry: Types, types: Types, liveIn: seq<nat>, base: nat, intLoop: bool)
    requires forall r :: r in entry <==> LoopRegister(base, r) || r in liveIn
    requires forall r :: r in entry ==> entry[r] == if !LoopRegister(base, r) then AnyKind else if intLoop then IntKind else FloatKind
    requires types.Keys == entry.Keys && forall r :: r in entry && entry[r] != AnyKind ==> types[r] == entry[r]
    ensures forall r :: r in types <==> LoopRegister(base, r) || r in liveIn
    ensures forall r :: LoopRegister(base, r) ==> types[r] == if intLoop then IntKind else FloatKind
  {
  }

  lemma PlanEnd(plan: Plan, slots: Slots, maxFloats: nat, maxInts: nat)
    requires slots.Dense() && slots.floats <= maxFloats && slots.ints <= maxInts && plan.slots == slots.of
    requires plan.b.Valid() && plan.b.p.code[plan.b.latch].ForLoop?
    requires forall r :: r in plan.types <==> LoopRegister(plan.b.p.code[plan.b.latch].a, r) || r in plan.found.liveIn
    requires forall r :: LoopRegister(plan.b.p.code[plan.b.latch].a, r) ==> plan.types[r] == if plan.intLoop then IntKind else FloatKind
    requires Undecided(plan.types) == {} && plan.flow.From(plan.b, plan.types)
    requires EndsAsItStarts(plan.b, plan.flow, plan.types, plan.found.written) && AllRun(plan.b, plan.flow, plan.b.latch)
    requires EntrySlots(plan.slots, plan.types) && ResultSlots(plan.slots, plan.b, plan.flow.results, plan.b.latch)
    ensures Planned(plan)
    ensures forall s :: s in plan.slots ==> plan.slots[s] < if s.t == IntKind then maxInts else maxFloats
  {
  }
}
