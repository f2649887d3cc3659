/** Loops that the planner does take: every straight body of arithmetic on the loop's
    registers and on what the body has computed. */
module KernelStraight {
  import opened Wrappers
  import opened Int64
  import opened Bytecode
  import opened KernelFlow
  import opened KernelTypes
  import opened KernelScan
  import opened KernelPlan

  // ---------- Straight bodies ----------

  /** The kind of number that a field is known to be. */
  function KindIn(p: Proto, types: Types, field: RK): Kind {
    match field
    case R(r) => if r in types then types[r] else AnyKind
    case K(k) => if Constant(p, k).Int? then IntKind else if Constant(p, k).Flt? then FloatKind else AnyKind
  }

  /** Arithmetic on numbers of known kinds: a division is of an integer register by a
      nonzero constant of 32 bits. */
  predicate Takes(p: Proto, i: Instr, types: Types) {
    match i
    case Move(_, b) => KindIn(p, types, R(b)) != AnyKind
    case UnaryMinus(_, b) => KindIn(p, types, R(b)) != AnyKind
    case LoadConstant(_, k) => KindIn(p, types, K(k)) != AnyKind
    case Arith(_, _, rb, rc) => KindIn(p, types, rb) != AnyKind && KindIn(p, types, rc) != AnyKind
    case DivMod(_, _, rb, rc) =>
      && rb.R? && KindIn(p, types, rb) == IntKind
      && rc.K? && Constant(p, rc.k).Int? && Constant(p, rc.k).i != 0 && -0x8000_0000 <= Constant(p, rc.k).i <= 0x7fff_ffff
    case _ => false
  }

  /** The kind of number that it gives: an integer of integers, but for /. */
  function Gives(p: Proto, i: Instr, types: Types): Kind {
    match i
    case Move(_, b) => KindIn(p, types, R(b))
    case UnaryMinus(_, b) => KindIn(p, types, R(b))
    case LoadConstant(_, k) => KindIn(p, types, K(k))
    case Arith(op, _, rb, rc) =>
      if !op.Div? && KindIn(p, types, rb) == IntKind && KindIn(p, types, rc) == IntKind then IntKind else FloatKind
    case _ => IntKind
  }

  /** The register that it writes. */
  function Target(i: Instr): nat {
    match i
    case Move(a, _) => a
    case UnaryMinus(a, _) => a
    case LoadConstant(a, _) => a
    case Arith(_, a, _, _) => a
    case DivMod(_, a, _, _) => a
    case _ => 0
  }

  /** The loop's four registers. */
  function LoopTypes(base: nat, intLoop: bool): Types {
    var kind := if intLoop then IntKind else FloatKind;
    map[base := kind, base + 1 := kind, base + 2 := kind, base + 3 := kind]
  }

  /** The kinds known before ip. */
  function TypesTo(b: Loop, types: Types, ip: int): Types
    requires b.Valid() && b.start <= ip <= b.latch
    decreases ip
  {
    if ip == b.start then types
    else
      var before := TypesTo(b, types, ip - 1);
      before[Target(b.p.code[ip - 1]) := Gives(b.p, b.p.code[ip - 1], before)]
  }

  /** A body of such arithmetic, which leaves the loop's registers the kinds they
      have. */
  ghost predicate Straight(b: Loop, intLoop: bool) {
    && b.Valid() && b.p.code[b.latch].ForLoop?
    && var types := LoopTypes(b.p.code[b.latch].a, intLoop);
    && (forall ip :: b.start <= ip < b.latch ==> Takes(b.p, b.p.code[ip], TypesTo(b, types, ip)))
    && (forall r :: r in types ==> TypeOf(TypesTo(b, types, b.latch), r) == types[r])
  }

  function StraightFlow(b: Loop, intLoop: bool): Flow
    requires b.Valid() && b.p.code[b.latch].ForLoop?
  {
    var types := LoopTypes(b.p.code[b.latch].a, intLoop);
    Flow(seq(b.latch - b.start + 1, i requires 0 <= i < b.latch - b.start + 1 => TypesTo(b, types, b.start + i)),
         map ip | b.start <= ip < b.latch :: Gives(b.p, b.p.code[ip], TypesTo(b, types, ip)))
  }

  function StraightFound(b: Loop, intLoop: bool): Found
    requires b.Valid() && b.p.code[b.latch].ForLoop?
  {
    var base := b.p.code[b.latch].a;
    Found([base, base + 1, base + 2], LoopWrites(base, intLoop) + Targets(b), map[], map[])
  }

  /** What the body writes, in order. */
  function Targets(b: Loop): seq<nat>
    requires b.Valid()
  {
    seq<nat>(b.latch - b.start, i requires 0 <= i < b.latch - b.start => Target(b.p.code[b.start + i]))
  }

  // ---------- Their flow ----------

  lemma TakesWrites(p: Proto, i: Instr, types: Types)
    requires Takes(p, i, types)
    ensures Writes(i) == Some(Target(i)) && !i.Compare? && !i.Jump? && !i.GetUpValue? && !i.GetTable? && !i.SetTable?
    ensures Result(p, i, types) == (Gives(p, i, types), true) && Gives(p, i, types) != AnyKind
    ensures Runs(p, i, types, Gives(p, i, types))
  {
  }

  lemma TakesScans(b: Loop, constOK: nat -> bool, intrinsic: nat -> Option<nat>, ip: int, types: Types)
    requires b.Valid() && b.start <= ip < b.latch && Takes(b.p, b.p.code[ip], types) && forall k :: constOK(k)
    ensures Scans(b, constOK, intrinsic, ip)
  {
  }

  lemma TakesReads(p: Proto, i: Instr, types: Types, r: nat)
    requires Takes(p, i, types) && ReadsRegister(i, r)
    ensures r in types
  {
  }

  lemma TakesAt(b: Loop, intLoop: bool, ip: int)
    requires Straight(b, intLoop) && b.start <= ip < b.latch
    ensures Takes(b.p, b.p.code[ip], TypesTo(b, LoopTypes(b.p.code[b.latch].a, intLoop), ip))
    ensures Writes(b.p.code[ip]) == Some(Target(b.p.code[ip])) && !b.p.code[ip].Compare? && !b.p.code[ip].Jump?
    ensures !b.p.code[ip].GetUpValue? && !b.p.code[ip].GetTable? && !b.p.code[ip].SetTable?
  {
    TakesWrites(b.p, b.p.code[ip], TypesTo(b, LoopTypes(b.p.code[b.latch].a, intLoop), ip));
  }

  lemma {:induction false} StraightVisited(b: Loop, intLoop: bool, ip: int)
    requires Straight(b, intLoop) && b.start <= ip <= b.latch
    ensures b.Visited(ip)
    decreases ip
  {
    hide Straight, Takes;
    StraightValid(b, intLoop);
    if ip > b.start {
      StraightVisited(b, intLoop, ip - 1);
      TakesAt(b, intLoop, ip - 1);
    }
  }

  lemma StraightValid(b: Loop, intLoop: bool)
    requires Straight(b, intLoop)
    ensures b.Valid() && b.p.code[b.latch].ForLoop? && 0 <= b.start <= b.latch < |b.p.code|
  {
  }

  /** The only way to a pc is from the one before. */
  lemma StraightEdge(b: Loop, intLoop: bool, j: int, ip: int)
    requires Straight(b, intLoop)
    ensures b.Valid() && (b.Edge(j, ip) <==> b.start <= j < b.latch && ip == j + 1)
  {
    hide Loop.Visited, Straight;
    StraightValid(b, intLoop);
    if b.start <= j < b.latch {
      TakesAt(b, intLoop, j);
      StraightVisited(b, intLoop, j);
    }
  }

  lemma FlowAt(b: Loop, intLoop: bool, ip: int)
    requires b.Valid() && b.p.code[b.latch].ForLoop? && b.start <= ip <= b.latch
    ensures StraightFlow(b, intLoop).Fits(b)
    ensures StraightFlow(b, intLoop).At(b, ip) == TypesTo(b, LoopTypes(b.p.code[b.latch].a, intLoop), ip)
  {
    hide TypesTo, LoopTypes;
  }

  lemma ResultHere(b: Loop, intLoop: bool, ip: int)
    requires b.Valid() && b.p.code[b.latch].ForLoop? && b.start <= ip < b.latch
    ensures
      var f, types := StraightFlow(b, intLoop), LoopTypes(b.p.code[b.latch].a, intLoop);
      ip in f.results && f.results[ip] == Gives(b.p, b.p.code[ip], TypesTo(b, types, ip))
  {
    hide TypesTo, LoopTypes, Gives;
  }

  lemma StraightOut(b: Loop, intLoop: bool, j: int)
    requires Straight(b, intLoop) && b.start <= j < b.latch
    ensures b.Valid() && StraightFlow(b, intLoop).Fits(b)
    ensures StraightFlow(b, intLoop).Out(b, j) == StraightFlow(b, intLoop).At(b, j + 1)
  {
    hide Straight, LoopTypes, Gives, Target, StraightFlow, Takes, Flow.At;
    StraightValid(b, intLoop);
    TakesAt(b, intLoop, j);
    FlowAt(b, intLoop, j);
    FlowAt(b, intLoop, j + 1);
    ResultHere(b, intLoop, j);
  }

  lemma StraightMerged(b: Loop, intLoop: bool, ip: int)
    requires Straight(b, intLoop) && b.start < ip <= b.latch
    ensures StraightFlow(b, intLoop).Fits(b) && StraightFlow(b, intLoop).Merged(b, ip)
    ensures forall r, i, j :: !StraightFlow(b, intLoop).Clash(b, ip, r, i, j)
  {
    hide Straight, StraightFlow, Loop.Edge, Loop.Visited, Flow.Out, Flow.At;
    StraightValid(b, intLoop);
    StraightOut(b, intLoop, ip - 1);
    forall j
      ensures b.Edge(j, ip) <==> j == ip - 1
    {
      StraightEdge(b, intLoop, j, ip);
    }
    assert b.Edge(ip - 1, ip);
  }

  lemma StraightFlows(b: Loop, intLoop: bool)
    requires Straight(b, intLoop)
    ensures StraightFlow(b, intLoop).From(b, LoopTypes(b.p.code[b.latch].a, intLoop)) && !StraightFlow(b, intLoop).Clashes(b)
    ensures AllRun(b, StraightFlow(b, intLoop), b.latch)
  {
    hide Straight, StraightFlow, LoopTypes, Loop.Visited, Flow.Merged, Flow.Clash, Takes, Runs, Result, Gives, TypesTo, Flow.At;
    StraightValid(b, intLoop);
    var f := StraightFlow(b, intLoop);
    FlowAt(b, intLoop, b.start);
    ClashInside(b, f);
    ResultsInside(b, intLoop);
    forall ip | b.start < ip <= b.latch
      ensures f.Fits(b) && f.Merged(b, ip) && forall r, i, j :: !f.Clash(b, ip, r, i, j)
    {
      StraightMerged(b, intLoop, ip);
    }
    forall ip | b.start <= ip < b.latch
      ensures f.Fits(b) && ip in f.results && Result(b.p, b.p.code[ip], f.At(b, ip)) == (f.results[ip], true)
      ensures Runs(b.p, b.p.code[ip], f.At(b, ip), f.results[ip]) && b.Visited(ip) && Writes(b.p.code[ip]).Some?
    {
      StraightRuns(b, intLoop, ip);
    }
    StartsSo(b, intLoop);
    if f.Clashes(b) {
      var ip, r, i, j :| f.Clash(b, ip, r, i, j);
      StraightMerged(b, intLoop, ip);
    }
  }

  lemma StraightRuns(b: Loop, intLoop: bool, ip: int)
    requires Straight(b, intLoop) && b.start <= ip < b.latch
    ensures b.Valid() && StraightFlow(b, intLoop).Fits(b) && b.Visited(ip) && Writes(b.p.code[ip]).Some?
    ensures
      var f := StraightFlow(b, intLoop);
      && ip in f.results && Result(b.p, b.p.code[ip], f.At(b, ip)) == (f.results[ip], true)
      && Runs(b.p, b.p.code[ip], f.At(b, ip), f.results[ip])
  {
    hide Straight, StraightFlow, LoopTypes, Loop.Visited, Takes, Runs, Result, Gives, TypesTo, Flow.At;
    StraightValid(b, intLoop);
    TakesAt(b, intLoop, ip);
    StraightVisited(b, intLoop, ip);
    FlowAt(b, intLoop, ip);
    ResultHere(b, intLoop, ip);
    TakesWrites(b.p, b.p.code[ip], TypesTo(b, LoopTypes(b.p.code[b.latch].a, intLoop), ip));
  }

  lemma StartsSo(b: Loop, intLoop: bool)
    requires b.Valid() && b.p.code[b.latch].ForLoop?
    ensures |StraightFlow(b, intLoop).at| > 0 && StraightFlow(b, intLoop).at[0] == LoopTypes(b.p.code[b.latch].a, intLoop)
  {
    hide LoopTypes, StraightFlow;
    FlowAt(b, intLoop, b.start);
  }

  lemma ResultsInside(b: Loop, intLoop: bool)
    requires b.Valid() && b.p.code[b.latch].ForLoop?
    ensures forall ip :: ip in StraightFlow(b, intLoop).results ==> b.start <= ip < b.latch
  {
    hide LoopTypes, TypesTo, Gives;
  }

  lemma ClashInside(b: Loop, f: Flow)
    requires f.Fits(b)
    ensures forall ip, r, i, j :: f.Clash(b, ip, r, i, j) ==> b.start < ip <= b.latch
  {
  }

  // ---------- What is found in them ----------

  /** Known registers are the loop's and those written before. */
  lemma {:induction false} KnownWritten(b: Loop, intLoop: bool, ip: int, r: nat)
    requires Straight(b, intLoop) && b.start <= ip <= b.latch && r in TypesTo(b, LoopTypes(b.p.code[b.latch].a, intLoop), ip)
    ensures LoopRegister(b.p.code[b.latch].a, r) || WrittenBefore(b, r, ip)
    decreases ip
  {
    hide Straight, Loop.Visited;
    StraightValid(b, intLoop);
    if ip > b.start {
      TakesAt(b, intLoop, ip - 1);
      StraightVisited(b, intLoop, ip - 1);
      if r == Target(b.p.code[ip - 1]) {
        assert b.Visited(ip - 1) && Writes(b.p.code[ip - 1]) == Some(r);
      } else {
        KnownWritten(b, intLoop, ip - 1, r);
      }
    } else {
      assert r in LoopTypes(b.p.code[b.latch].a, intLoop);
    }
  }

  lemma NothingEnters(b: Loop, intLoop: bool, r: nat)
    requires Straight(b, intLoop) && !LoopRegister(b.p.code[b.latch].a, r)
    ensures !EntersBefore(b, r, b.latch)
  {
    hide Straight, Loop.Visited, LoopRegister, UsedBefore, WrittenBefore, LoopTypes;
    StraightValid(b, intLoop);
    forall j | b.start <= j < b.latch
      ensures !EntersAt(b, r, j)
    {
      TakesAt(b, intLoop, j);
      NotSkipped(b, intLoop, j);
      if ReadsRegister(b.p.code[j], r) {
        TakesReads(b.p, b.p.code[j], TypesTo(b, LoopTypes(b.p.code[b.latch].a, intLoop), j), r);
        KnownWritten(b, intLoop, j, r);
        WrittenUsed(b, r, j);
      }
    }
  }

  lemma NotSkipped(b: Loop, intLoop: bool, ip: int)
    requires Straight(b, intLoop) && b.start <= ip <= b.latch
    ensures b.Valid() && !b.Skipped(ip)
  {
    hide Straight;
    StraightValid(b, intLoop);
    forall j | b.start <= j < ip
      ensures !b.Leaps(j, ip)
    {
      TakesAt(b, intLoop, j);
    }
  }

  lemma StraightWritten(b: Loop, intLoop: bool, r: nat)
    requires Straight(b, intLoop)
    ensures r in StraightFound(b, intLoop).written <==>
            r in LoopWrites(b.p.code[b.latch].a, intLoop) || WrittenBefore(b, r, b.latch)
  {
    hide Straight, Loop.Visited, LoopWrites;
    StraightValid(b, intLoop);
    var own := Targets(b);
    if r in own {
      var i :| 0 <= i < |own| && own[i] == r;
      TakesAt(b, intLoop, b.start + i);
      StraightVisited(b, intLoop, b.start + i);
      assert WrittenBefore(b, r, b.latch);
    }
    if WrittenBefore(b, r, b.latch) {
      var j :| b.start <= j < b.latch && b.Visited(j) && Writes(b.p.code[j]) == Some(r);
      TakesAt(b, intLoop, j);
      assert own[j - b.start] == r;
    }
  }

  lemma StraightIsFound(b: Loop, intrinsic: nat -> Option<nat>, intLoop: bool)
    requires Straight(b, intLoop)
    ensures FoundIn(b, intrinsic, intLoop, StraightFound(b, intLoop))
  {
    hide Straight, WrittenBefore, EntersBefore, CallsNoted, BuffersNoted, LoopWrites;
    StraightValid(b, intLoop);
    NothingCalled(b, intrinsic, intLoop);
    forall r: nat
      ensures r in StraightFound(b, intLoop).written <==>
              r in LoopWrites(b.p.code[b.latch].a, intLoop) || WrittenBefore(b, r, b.latch)
      ensures !LoopRegister(b.p.code[b.latch].a, r) ==> !EntersBefore(b, r, b.latch)
    {
      StraightWritten(b, intLoop, r);
      if !LoopRegister(b.p.code[b.latch].a, r) {
        NothingEnters(b, intLoop, r);
      }
    }
  }

  lemma NothingCalled(b: Loop, intrinsic: nat -> Option<nat>, intLoop: bool)
    requires Straight(b, intLoop)
    ensures b.Valid() && CallsNoted(b, intrinsic, map[], b.latch) && BuffersNoted(b, map[], b.latch)
    ensures forall t :: !IndexedBefore(b, t, b.latch)
  {
    hide Straight, Loop.Visited, Loop.CallFrom;
    StraightValid(b, intLoop);
    forall ip | b.start <= ip < b.latch
      ensures !b.p.code[ip].GetUpValue? && !b.p.code[ip].GetTable? && !b.p.code[ip].SetTable?
    {
      TakesAt(b, intLoop, ip);
    }
  }

  // ---------- They qualify ----------

  lemma StraightScans(b: Loop, constOK: nat -> bool, intrinsic: nat -> Option<nat>, intLoop: bool)
    requires Straight(b, intLoop) && forall k :: constOK(k)
    ensures Scannable(b, constOK, intrinsic)
  {
    hide Straight, Loop.Visited, Scans, IndexedBefore, Takes;
    StraightValid(b, intLoop);
    NothingCalled(b, intrinsic, intLoop);
    forall ip | b.start <= ip < b.latch
      ensures Scans(b, constOK, intrinsic, ip)
    {
      TakesAt(b, intLoop, ip);
      TakesScans(b, constOK, intrinsic, ip, TypesTo(b, LoopTypes(b.p.code[b.latch].a, intLoop), ip));
    }
  }

  lemma StraightTyping(b: Loop, intrinsic: nat -> Option<nat>, intLoop: bool)
    requires Straight(b, intLoop)
    ensures Typing(b, intrinsic, intLoop, LoopTypes(b.p.code[b.latch].a, intLoop), StraightFlow(b, intLoop))
  {
    hide FoundIn, Flow.From, Flow.Clashes, AllRun, Takes;
    StraightIsFound(b, intrinsic, intLoop);
    StraightFlows(b, intLoop);
    EntryIsLoop(b.p.code[b.latch].a, intLoop);
    FlowFits(b, StraightFlow(b, intLoop), LoopTypes(b.p.code[b.latch].a, intLoop));
    assert TypingOf(b, intLoop, StraightFound(b, intLoop), LoopTypes(b.p.code[b.latch].a, intLoop), StraightFlow(b, intLoop));
  }

  lemma EntryIsLoop(base: nat, intLoop: bool)
    ensures EntryOf([base, base + 1, base + 2], base, intLoop) == LoopTypes(base, intLoop)
    ensures Undecided(LoopTypes(base, intLoop)) == {}
  {
  }

  /** All types are known on entry, so that nothing is guessed. */
  lemma StraightNoGuess(b: Loop, intrinsic: nat -> Option<nat>, intLoop: bool, r: nat, k: Kind)
    requires Straight(b, intLoop)
    ensures !GuessedIn(b, intrinsic, intLoop, r, k)
  {
    hide Straight, FoundIn, Likelier, Flow.From, LoopTypes, StraightFound;
    StraightValid(b, intLoop);
    var base := b.p.code[b.latch].a;
    forall found | FoundIn(b, intrinsic, intLoop, found)
      ensures !Guessed(b, EntryOf(found.liveIn, base, intLoop), r, k)
    {
      StraightIsFound(b, intrinsic, intLoop);
      SameLiveIn(b, intrinsic, intLoop, found, StraightFound(b, intLoop));
      StraightLiveIn(b, intLoop);
      NoneOpen(b, base, intLoop, found.liveIn, r, k);
    }
  }

  lemma SameLiveIn(b: Loop, intrinsic: nat -> Option<nat>, intLoop: bool, f: Found, g: Found)
    requires FoundIn(b, intrinsic, intLoop, f) && FoundIn(b, intrinsic, intLoop, g)
    ensures forall r :: r in f.liveIn <==> r in g.liveIn
  {
    hide LiveIn, WrittenBefore, CallsNoted, BuffersNoted;
    SameLeaves(b, intrinsic, intLoop, f, g);
    SameLeaves(b, intrinsic, intLoop, g, f);
  }

  lemma StraightLiveIn(b: Loop, intLoop: bool)
    requires b.Valid() && b.p.code[b.latch].ForLoop?
    ensures forall q :: q in StraightFound(b, intLoop).liveIn <==> b.p.code[b.latch].a <= q <= b.p.code[b.latch].a + 2
  {
  }

  lemma NoneOpen(b: Loop, base: nat, intLoop: bool, liveIn: seq<nat>, r: nat, k: Kind)
    requires b.Valid() && forall q :: q in liveIn <==> base <= q <= base + 2
    ensures !Guessed(b, EntryOf(liveIn, base, intLoop), r, k)
  {
    hide Likelier, Flow.From;
  }

  /** Every straight body qualifies, in any order of its arithmetic, if it needs few
      enough machine registers. */
  lemma StraightQualifies(b: Loop, constOK: nat -> bool, intrinsic: nat -> Option<nat>, intLoop: bool, guesses: Types,
                          maxFloats: nat, maxInts: nat)
    requires Straight(b, intLoop) && forall k :: constOK(k)
    requires forall r :: r in guesses ==> GuessedIn(b, intrinsic, intLoop, r, guesses[r])
    requires Enough(b, LoopTypes(b.p.code[b.latch].a, intLoop), StraightFlow(b, intLoop).results, maxFloats, maxInts)
    ensures Qualifies(b, constOK, intrinsic, intLoop, guesses, maxFloats, maxInts)
  {
    hide Straight, Scannable, Typing, Enough, GuessedIn, LoopTypes, StraightFlow;
    StraightValid(b, intLoop);
    StraightScans(b, constOK, intrinsic, intLoop);
    StraightTyping(b, intrinsic, intLoop);
    forall r | r in guesses
      ensures false
    {
      StraightNoGuess(b, intrinsic, intLoop, r, guesses[r]);
    }
    assert Follows(guesses, LoopTypes(b.p.code[b.latch].a, intLoop));
  }

  // ---------- One of every kind ----------

  function UpTo(n: nat, t: Kind): (s: set<KSlot>)
    ensures |s| <= n && forall r: nat :: r < n ==> KSlot(r, t) in s
  {
    if n == 0 then {} else UpTo(n - 1, t) + {KSlot(n - 1, t)}
  }

  /** Registers below n need n machine registers of a class at most. */
  lemma EnoughBelow(b: Loop, types: Types, results: map<int, Kind>, n: nat)
    requires b.Valid() && forall s :: Needs(b, types, results, s) ==> s.r < n && s.t != AnyKind
    ensures Enough(b, types, results, n, n)
  {
    hide Needs;
    forall ints: bool
      ensures !NeedsMore(b, types, results, ints, n)
    {
      forall need: set<KSlot> | AllNeeded(b, types, results, need, ints)
        ensures |need| <= n
      {
        var t := if ints then IntKind else FloatKind;
        forall s | s in need
          ensures s in UpTo(n, t)
        {
          assert s == KSlot(s.r, t);
        }
        FewerOrEqual(need, UpTo(n, t));
      }
    }
  }

  /** An integer loop on registers 0 to 3 whose body has every operator. */
  function EveryOperator(): Loop {
    Loop(Proto([Arith(Add, 4, R(3), K(0)), Arith(Sub, 5, R(4), R(3)), Arith(Mul, 6, R(5), R(4)), Arith(Div, 7, R(6), R(3)),
                DivMod(true, 8, R(6), K(1)), DivMod(false, 9, R(6), K(1)), UnaryMinus(10, 7), Move(11, 10), LoadConstant(12, 1),
                ForLoop(0, -10)], [Int(1), Int(-7)]), 0, 9)
  }

  function EveryType(ip: nat): Types {
    var t0 := LoopTypes(0, true);
    var t4 := t0[4 := IntKind][5 := IntKind][6 := IntKind];
    if ip == 0 then t0 else if ip == 1 then t0[4 := IntKind] else if ip == 2 then t0[4 := IntKind][5 := IntKind]
    else if ip == 3 then t4 else if ip == 4 then t4[7 := FloatKind] else if ip == 5 then t4[7 := FloatKind][8 := IntKind]
    else if ip == 6 then t4[7 := FloatKind][8 := IntKind][9 := IntKind]
    else if ip == 7 then t4[7 := FloatKind][8 := IntKind][9 := IntKind][10 := FloatKind]
    else if ip == 8 then t4[7 := FloatKind][8 := IntKind][9 := IntKind][10 := FloatKind][11 := FloatKind]
    else t4[7 := FloatKind][8 := IntKind][9 := IntKind][10 := FloatKind][11 := FloatKind][12 := IntKind]
  }

  lemma {:induction false} EveryTypeTo(ip: nat)
    requires ip <= 9
    ensures EveryOperator().Valid() && TypesTo(EveryOperator(), LoopTypes(0, true), ip) == EveryType(ip)
    decreases ip
  {
    if ip > 0 {
      EveryTypeTo(ip - 1);
    }
  }

  lemma EveryTakes(ip: nat)
    requires ip < 9
    ensures Takes(EveryOperator().p, EveryOperator().p.code[ip], EveryType(ip))
  {
  }

  lemma EveryStraight()
    ensures Straight(EveryOperator(), true)
  {
    hide Takes, EveryType, TypesTo;
    forall ip: nat | ip <= 9
      ensures EveryOperator().Valid() && TypesTo(EveryOperator(), LoopTypes(0, true), ip) == EveryType(ip)
      ensures ip < 9 ==> Takes(EveryOperator().p, EveryOperator().p.code[ip], EveryType(ip))
    {
      EveryTypeTo(ip);
      if ip < 9 {
        EveryTakes(ip);
      }
    }
    EveryEnds();
  }

  lemma EveryEnds()
    ensures forall r :: r in LoopTypes(0, true) ==> TypeOf(EveryType(9), r) == LoopTypes(0, true)[r]
  {
  }

  lemma EveryNeeds(s: KSlot)
    requires Needs(EveryOperator(), LoopTypes(0, true), StraightFlow(EveryOperator(), true).results, s)
    ensures s.r < 13 && s.t != AnyKind
  {
    hide TypesTo, Gives, Takes;
    EveryStraight();
    if !NeedsOnEntry(LoopTypes(0, true), s) {
      var b, f := EveryOperator(), StraightFlow(EveryOperator(), true);
      var ip :| 0 <= ip < 9 && ip in f.results && Writes(b.p.code[ip]) == Some(s.r) && f.results[ip] == s.t;
      StraightRuns(b, true, ip);
      StraightGives(b, true, ip);
    }
  }

  lemma StraightGives(b: Loop, intLoop: bool, ip: int)
    requires Straight(b, intLoop) && b.start <= ip < b.latch
    ensures b.Valid() && ip in StraightFlow(b, intLoop).results && StraightFlow(b, intLoop).results[ip] != AnyKind
  {
    hide Straight, StraightFlow, LoopTypes, Takes, Runs, Result, Gives, TypesTo;
    StraightValid(b, intLoop);
    TakesAt(b, intLoop, ip);
    ResultHere(b, intLoop, ip);
    TakesWrites(b.p, b.p.code[ip], TypesTo(b, LoopTypes(b.p.code[b.latch].a, intLoop), ip));
  }

  /** The planner has a plan for it. */
  method EveryPlanned() returns (plan: Option<Plan>)
    ensures plan.Some? && plan.value.b == EveryOperator()
  {
    hide *;
    EveryShape();
    ghost var guesses: Types;
    plan, guesses := PlanKernel(EveryOperator().p, 9, true, 13, 13, _ => true, _ => None);
    EveryStraight();
    EveryEnough();
    StraightQualifies(EveryOperator(), _ => true, _ => None, true, guesses, 13, 13);
  }

  lemma EveryShape()
    ensures |EveryOperator().p.code| == 10 && EveryOperator().p.code[9] == ForLoop(0, -10)
    ensures EveryOperator() == Loop(EveryOperator().p, 0, 9) && EveryOperator().Valid()
  {
  }

  lemma EveryEnough()
    ensures EveryOperator().Valid() && EveryOperator().p.code[9].ForLoop?
    ensures Enough(EveryOperator(), LoopTypes(0, true), StraightFlow(EveryOperator(), true).results, 13, 13)
  {
    hide Needs, StraightFlow, LoopTypes, Enough;
    EveryShape();
    forall s | Needs(EveryOperator(), LoopTypes(0, true), StraightFlow(EveryOperator(), true).results, s)
      ensures s.r < 13 && s.t != AnyKind
    {
      EveryNeeds(s);
    }
    EnoughBelow(EveryOperator(), LoopTypes(0, true), StraightFlow(EveryOperator(), true).results, 13);
  }
}
