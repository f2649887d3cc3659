/** The inference of the types that a loop body's registers have on entry. */
module KernelTypes {
  import opened Wrappers
  import opened Bytecode
  import opened KernelFlow

  /** The other operand of an arithmetic or comparison that r is one of. */
  function Partner(i: Instr, r: nat): Option<RK> {
    match i
    case Arith(_, _, rb, rc) => if rb == R(r) then Some(rc) else if rc == R(r) then Some(rb) else None
    case Compare(_, _, rb, rc) => if rb == R(r) then Some(rc) else if rc == R(r) then Some(rb) else None
    case _ => None
  }

  /** Whether the instruction at ip meets r with an operand of kind k. */
  predicate Meets(b: Loop, at: seq<Types>, r: nat, k: Kind, ip: int)
    requires b.Valid() && |at| == b.latch - b.start + 1 && b.start <= ip < b.latch
  {
    var other := Partner(b.p.code[ip], r);
    other.Some? && FieldKind(b.p, at[ip - b.start], other.value) == k
  }

  /** How many instructions before ip do. */
  function Meetings(b: Loop, at: seq<Types>, r: nat, k: Kind, ip: int): nat
    requires b.Valid() && |at| == b.latch - b.start + 1 && b.start <= ip <= b.latch
    decreases ip - b.start
  {
    if ip == b.start then 0
    else Meetings(b, at, r, k, ip - 1) + (if Meets(b, at, r, k, ip - 1) then 1 else 0)
  }

  /** Arithmetic and comparisons meet a register with their other operand. */
  lemma PartnerMeans(i: Instr, r: nat)
    ensures Partner(i, r).Some? <==> (i.Arith? || i.Compare?) && (i.rb == R(r) || i.rc == R(r))
    ensures Partner(i, r).Some? ==> Partner(i, r).value == if i.rb == R(r) then i.rc else i.rb
  {
  }

  /** Meetings are counted. */
  lemma {:induction false} MeetingsCount(b: Loop, at: seq<Types>, r: nat, k: Kind, ip: int)
    requires b.Valid() && |at| == b.latch - b.start + 1 && b.start <= ip <= b.latch
    ensures Meetings(b, at, r, k, ip) == |set j | b.start <= j < ip && Meets(b, at, r, k, j)|
    decreases ip - b.start
  {
    hide Meets;
    var all := set j | b.start <= j < ip && Meets(b, at, r, k, j);
    if ip > b.start {
      MeetingsCount(b, at, r, k, ip - 1);
      var less := set j | b.start <= j < ip - 1 && Meets(b, at, r, k, j);
      assert all == if Meets(b, at, r, k, ip - 1) then less + {ip - 1} else less;
    } else {
      assert all == {};
    }
  }

  /** The likelier type of a register the body does not decide: a float if it
      meets floats more often than integers. */
  function Likelier(b: Loop, at: seq<Types>, r: nat): (k: Kind)
    requires b.Valid() && |at| == b.latch - b.start + 1
    ensures k != AnyKind
  {
    if Meetings(b, at, r, FloatKind, b.latch) > Meetings(b, at, r, IntKind, b.latch) then FloatKind else IntKind
  }

  method Guess(b: Loop, at: seq<Types>, r: nat) returns (k: Kind)
    requires b.Valid() && |at| == b.latch - b.start + 1
    ensures k == Likelier(b, at, r)
  {
    var floats, ints := 0, 0;
    var ip := b.start;
    while ip < b.latch
      invariant b.start <= ip <= b.latch
      invariant floats == Meetings(b, at, r, FloatKind, ip) && ints == Meetings(b, at, r, IntKind, ip)
    {
      var other := Partner(b.p.code[ip], r);
      if other.Some? {
        match FieldKind(b.p, at[ip - b.start], other.value) {
          case FloatKind => floats := floats + 1;
          case IntKind => ints := ints + 1;
          case AnyKind =>
        }
      }
      ip := ip + 1;
    }
    return if floats > ints then FloatKind else IntKind;
  }

  /** An RK field that is an integer no larger than 2^53 either way. */
  predicate ExactConstant(p: Proto, field: RK) {
    field.K? && Constant(p, field.k).Int? && ExactFloat(Constant(p, field.k).i)
  }

  predicate Known(p: Proto, state: Types, field: RK) {
    FieldKind(p, state, field) != AnyKind
  }

  /** Instruction i can run on operands of these types, writing a number of
      type result. */
  predicate Runs(p: Proto, i: Instr, state: Types, result: Kind) {
    match i
    case Compare(_, _, rb, rc) =>
      && Known(p, state, rb) && Known(p, state, rc)
      && (FieldKind(p, state, rb) == FieldKind(p, state, rc) || ExactConstant(p, rb) || ExactConstant(p, rc))
    case Jump(_, _) => true
    case GetUpValue(_, _) => true
    case SetTable(_, rb, rc) => FieldKind(p, state, rb) == IntKind && Known(p, state, rc)
    case GetTable(_, _, rc) => FieldKind(p, state, rc) == IntKind && result != AnyKind
    case Call(a, _, _) => TypeOf(state, a + 1) != AnyKind && result != AnyKind
    case Move(_, b) => TypeOf(state, b) != AnyKind && result != AnyKind
    case UnaryMinus(_, b) => TypeOf(state, b) != AnyKind && result != AnyKind
    case Arith(_, _, rb, rc) => Known(p, state, rb) && Known(p, state, rc) && result != AnyKind
    case DivMod(_, _, rb, rc) => Known(p, state, rb) && Known(p, state, rc) && result != AnyKind
    case _ => result != AnyKind
  }

  function ResultAt(results: map<int, Kind>, ip: int): Kind {
    if ip in results then results[ip] else AnyKind
  }

  /** Written registers have at the FORLOOP the types they have on entry. */
  ghost predicate EndsAsItStarts(b: Loop, flow: Flow, types: Types, written: seq<nat>)
    requires flow.Fits(b)
  {
    forall r :: r in written && r in types ==> TypeOf(flow.At(b, b.latch), r) == types[r]
  }

  ghost predicate AllRun(b: Loop, flow: Flow, upTo: int)
    requires flow.Fits(b) && upTo <= b.latch
  {
    forall ip :: b.start <= ip < upTo && b.Visited(ip) ==> Runs(b.p, b.p.code[ip], flow.At(b, ip), ResultAt(flow.results, ip))
  }

  /** checkTypes: the types of the body let every instruction run. */
  method CheckTypes(b: Loop, flow: Flow, types: Types, written: seq<nat>) returns (ok: bool)
    requires flow.Fits(b) && JumpsStay(b)
    ensures ok <==> EndsAsItStarts(b, flow, types, written) && AllRun(b, flow, b.latch)
  {
    hide Runs, Loop.KernelJump;
    var end := flow.at[b.latch - b.start];
    var n := 0;
    while n < |written|
      invariant 0 <= n <= |written|
      invariant forall k :: 0 <= k < n ==> written[k] in types ==> TypeOf(end, written[k]) == types[written[k]]
    {
      var r := written[n];
      if r in types && TypeOf(end, r) != types[r] {
        return false;
      }
      n := n + 1;
    }
    var ip := b.start;
    b.StartVisited();
    while ip < b.latch
      invariant b.start <= ip <= b.latch && b.Visited(ip)
      invariant AllRun(b, flow, ip)
    {
      if !Runs(b.p, b.p.code[ip], flow.at[ip - b.start], ResultAt(flow.results, ip)) {
        assert b.Visited(ip);
        return false;
      }
      CheckStep(b, flow, ip);
      ip := b.NextPc(ip);
    }
    return true;
  }

  lemma CheckStep(b: Loop, flow: Flow, ip: int)
    requires flow.Fits(b) && JumpsStay(b) && b.start <= ip < b.latch && b.Visited(ip)
    requires AllRun(b, flow, ip) && Runs(b.p, b.p.code[ip], flow.At(b, ip), ResultAt(flow.results, ip))
    ensures b.NextPc(ip) <= b.latch && b.Visited(b.NextPc(ip)) && AllRun(b, flow, b.NextPc(ip))
  {
    hide Runs, Loop.Visited, Loop.KernelJump, Flow.At;
    VisitedNext(b, ip);
    forall j | b.start <= j < b.NextPc(ip) && b.Visited(j)
      ensures j <= ip
    {
      if j == ip + 1 {
        b.NotConsumed(ip);
      }
    }
  }

  /** The registers whose type on entry is open. */
  function Undecided(types: Types): set<nat> {
    set r | r in types && types[r] == AnyKind
  }

  /** Everything the body writes is listed. */
  ghost predicate ListsWritten(b: Loop, written: seq<nat>)
    requires b.Valid()
  {
    forall ip :: b.start <= ip < b.latch && b.Visited(ip) && Writes(b.p.code[ip]).Some? ==> Writes(b.p.code[ip]).value in written
  }

  /** A typing: types on entry that decide those left open, whose flow g has no
      clashes, ends as it starts and lets everything run. */
  ghost predicate Works(b: Loop, entry: Types, written: seq<nat>, t: Types, g: Flow) {
    && Refines(entry, t) && Undecided(t) == {}
    && g.From(b, t) && !g.Clashes(b)
    && EndsAsItStarts(b, g, t, written) && AllRun(b, g, b.latch)
  }

  /** t has the types that were guessed. */
  predicate Follows(guesses: Types, t: Types) {
    forall r :: r in guesses ==> r in t && t[r] == guesses[r]
  }

  /** r was guessed to be a k: with some of the types decided the flow left it open
      to the end, and k was likelier on that flow. */
  ghost predicate Guessed(b: Loop, entry: Types, r: nat, k: Kind) {
    exists p, f: Flow :: OpenOn(b, entry, p, f, r) && k == Likelier(b, f.at, r)
  }

  ghost predicate OpenOn(b: Loop, entry: Types, p: Types, f: Flow, r: nat) {
    && Refines(entry, p) && f.From(b, p)
    && r in p && p[r] == AnyKind && TypeOf(f.At(b, b.latch), r) == AnyKind
  }

  /** The types decided so far are those of every typing that has the guesses. */
  ghost predicate Forced(b: Loop, entry: Types, written: seq<nat>, guesses: Types, types: Types) {
    forall t, g: Flow :: Works(b, entry, written, t, g) && Follows(guesses, t) ==> Refines(types, t)
  }

  /** Decides the open types on entry, in rounds that each leave fewer open, until
      the flow from them closes and everything runs, or the flow fails. But for the
      guesses nothing is chosen: if there is a typing that has them, it finds that
      one, and there is no other. */
  method InferTypes(b: Loop, entry: Types, liveIn: seq<nat>, written: seq<nat>)
    returns (types: Types, flow: Flow, ok: bool, ghost guesses: Types)
    requires JumpsStay(b) && ListsWritten(b, written)
    requires forall r :: r in Undecided(entry) ==> r in liveIn
    requires forall r :: r in liveIn ==> r in entry
    ensures ok ==> types.Keys == entry.Keys && Undecided(types) == {}
    ensures ok ==> forall r :: r in entry && entry[r] != AnyKind ==> types[r] == entry[r]
    ensures ok ==> flow.From(b, types) && EndsAsItStarts(b, flow, types, written) && AllRun(b, flow, b.latch)
    ensures ok ==> Works(b, entry, written, types, flow) && Follows(guesses, types)
    ensures forall t, g: Flow :: Works(b, entry, written, t, g) && Follows(guesses, t) ==> ok && types == t
    ensures forall r :: r in guesses ==> Guessed(b, entry, r, guesses[r])
  {
    hide Flow.From, Flow.Clashes, EndsAsItStarts, AllRun, JumpsStay, ListsWritten, Works, Follows, Forced, Guessed, Refines,
         Likelier;
    types, guesses := entry, map[];
    SameRefines(entry);
    NothingForced(b, entry, written);
    while true
      invariant types.Keys == entry.Keys && Undecided(types) <= Undecided(entry)
      invariant forall r :: r in entry && entry[r] != AnyKind ==> types[r] == entry[r]
      invariant Refines(entry, types) && Follows(guesses, types) && Forced(b, entry, written, guesses, types)
      invariant forall r :: r in guesses ==> Guessed(b, entry, r, guesses[r])
      decreases |Undecided(types)|
    {
      flow, ok := ComputeFlow(b, types);
      if !ok {
        NoTyping(b, entry, written, guesses, types);
        return;
      }
      FlowFits(b, flow, types);
      var end := flow.at[b.latch - b.start];
      var before := types;
      var changed := false;
      var undecided: int := -1;
      types, changed, undecided := DecideByEnd(types, end, liveIn);
      if changed {
        FewerUndecided(before, types);
        RoundDecides(b, entry, written, guesses, before, types, flow);
      } else if undecided >= 0 {
        var k := Guess(b, flow.at, undecided);
        types := types[undecided := k];
        assert (undecided as nat) in Undecided(before) && (undecided as nat) !in Undecided(types);
        FewerUndecided(before, types);
        GuessDecides(b, entry, written, guesses, before, undecided, k, flow);
        guesses := guesses[undecided := k];
      } else {
        NoneUndecided(entry, types, liveIn);
        ok := CheckTypes(b, flow, types, written);
        OnlyTyping(b, entry, written, guesses, types, flow);
        if ok {
          TypingFound(b, entry, written, types, flow);
        }
        return;
      }
    }
  }

  lemma NothingForced(b: Loop, entry: Types, written: seq<nat>)
    ensures Forced(b, entry, written, map[], entry) && Follows(map[], entry)
  {
  }

  /** Where the flow fails there is no typing. */
  lemma NoTyping(b: Loop, entry: Types, written: seq<nat>, guesses: Types, types: Types)
    requires Forced(b, entry, written, guesses, types)
    requires forall t, g: Flow :: Refines(types, t) && g.From(b, t) ==> g.Clashes(b)
    ensures forall t, g: Flow :: Works(b, entry, written, t, g) ==> !Follows(guesses, t)
  {
    hide Refines, Flow.From, Flow.Clashes, EndsAsItStarts, AllRun, Follows;
  }

  /** A register that the body does not write keeps its type. */
  lemma {:induction false} UnwrittenKeeps(b: Loop, f: Flow, types: Types, written: seq<nat>, ip: int, r: nat)
    requires f.From(b, types) && ListsWritten(b, written) && r !in written
    requires b.start <= ip <= b.latch && b.Visited(ip) && r in f.At(b, ip)
    ensures r in types && f.At(b, ip)[r] == types[r]
    decreases ip
  {
    hide Loop.Visited, Flow.Merged, Flow.Out, Result, ListsWritten;
    if ip > b.start {
      var j := GivenFrom(b, f, ip, r);
      UnwrittenStep(b, f, types, written, j, r);
      UnwrittenKeeps(b, f, types, written, j, r);
    }
  }

  lemma GivenFrom(b: Loop, f: Flow, ip: int, r: nat) returns (j: int)
    requires f.Fits(b) && b.start < ip <= b.latch && f.Merged(b, ip) && r in f.At(b, ip)
    ensures b.start <= j < ip && j < b.latch && b.Visited(j) && r in f.Out(b, j) && f.Out(b, j)[r] == f.At(b, ip)[r]
  {
    hide Loop.Visited, Flow.Out, Flow.Everywhere;
    assert f.SomeGives(b, ip, r);
    j :| b.Edge(j, ip) && r in f.Out(b, j) && f.Out(b, j)[r] == f.At(b, ip)[r];
    EdgeFrom(b, j, ip);
  }

  lemma UnwrittenStep(b: Loop, f: Flow, types: Types, written: seq<nat>, j: int, r: nat)
    requires f.From(b, types) && ListsWritten(b, written) && r !in written
    requires b.start <= j < b.latch && b.Visited(j) && r in f.Out(b, j)
    ensures r in f.At(b, j) && f.At(b, j)[r] == f.Out(b, j)[r]
  {
    hide Loop.Visited, Flow.Merged, Result;
  }

  /** The type that an open register ends the iteration with is that of every
      typing. */
  lemma EndForces(b: Loop, entry: Types, written: seq<nat>, types: Types, f: Flow, t: Types, g: Flow, r: nat)
    requires JumpsStay(b) && ListsWritten(b, written) && f.From(b, types)
    requires Works(b, entry, written, t, g) && Refines(types, t)
    requires r in types && types[r] == AnyKind && r in f.At(b, b.latch) && f.At(b, b.latch)[r] != AnyKind
    ensures t[r] == f.At(b, b.latch)[r]
  {
    hide Loop.Visited, Loop.Edge, Flow.From, Flow.Clashes, AllRun;
    EndVisited(b);
    FlowRefines(b, f, g, types, t, b.latch);
    if r !in written {
      UnwrittenKeeps(b, f, types, written, b.latch, r);
    }
  }

  lemma RoundDecides(b: Loop, entry: Types, written: seq<nat>, guesses: Types, before: Types, types: Types, f: Flow)
    requires JumpsStay(b) && ListsWritten(b, written) && f.From(b, before)
    requires Refines(entry, before) && Follows(guesses, before) && Forced(b, entry, written, guesses, before)
    requires types.Keys == before.Keys
    requires forall r :: r in before && before[r] != AnyKind ==> types[r] == before[r]
    requires f.Fits(b)
    requires forall r :: r in before && types[r] != before[r] ==>
      r in f.at[b.latch - b.start] && types[r] == f.at[b.latch - b.start][r]
    requires forall r :: r in guesses ==> Guessed(b, entry, r, guesses[r])
    ensures Refines(entry, types) && Follows(guesses, types) && Forced(b, entry, written, guesses, types)
  {
    hide Flow.From, Works, JumpsStay, ListsWritten, Guessed;
    forall r | r in guesses
      ensures guesses[r] != AnyKind
    {
      GuessKind(b, entry, r, guesses[r]);
    }
    forall t, g: Flow | Works(b, entry, written, t, g) && Follows(guesses, t)
      ensures Refines(types, t)
    {
      assert Refines(before, t);
      forall r | r in types
        ensures Decides(types[r], t[r])
      {
        if types[r] != before[r] && types[r] != AnyKind {
          EndForces(b, entry, written, before, f, t, g, r);
        }
      }
    }
  }

  lemma GuessKind(b: Loop, entry: Types, r: nat, k: Kind)
    requires Guessed(b, entry, r, k)
    ensures k != AnyKind
  {
  }

  lemma GuessDecides(b: Loop, entry: Types, written: seq<nat>, guesses: Types, before: Types, r: nat, k: Kind, f: Flow)
    requires f.From(b, before) && f.Fits(b) && r in before && before[r] == AnyKind
    requires TypeOf(f.at[b.latch - b.start], r) == AnyKind && k == Likelier(b, f.at, r)
    requires Refines(entry, before) && Follows(guesses, before) && Forced(b, entry, written, guesses, before)
    requires forall q :: q in guesses ==> Guessed(b, entry, q, guesses[q])
    ensures Refines(entry, before[r := k]) && Follows(guesses[r := k], before[r := k])
    ensures Forced(b, entry, written, guesses[r := k], before[r := k]) && Guessed(b, entry, r, k)
  {
    hide Flow.From, Works, Likelier;
    assert OpenOn(b, entry, before, f, r);
    assert r !in guesses by {
      if r in guesses {
        GuessKind(b, entry, r, guesses[r]);
      }
    }
    forall t, g: Flow | Works(b, entry, written, t, g) && Follows(guesses[r := k], t)
      ensures Refines(before[r := k], t)
    {
      assert Follows(guesses, t) by {
        forall q | q in guesses
          ensures q in t && t[q] == guesses[q]
        {
          assert guesses[r := k][q] == guesses[q];
        }
      }
    }
  }

  /** A typing's flow is the one that was found, so that the check accepts it. */
  lemma OnlyTyping(b: Loop, entry: Types, written: seq<nat>, guesses: Types, types: Types, f: Flow)
    requires JumpsStay(b) && f.From(b, types) && f.Fits(b) && Undecided(types) == {}
    requires Forced(b, entry, written, guesses, types)
    ensures forall t, g: Flow :: Works(b, entry, written, t, g) && Follows(guesses, t) ==>
      types == t && EndsAsItStarts(b, f, types, written) && AllRun(b, f, b.latch)
  {
    hide Flow.From, Works, JumpsStay, EndsAsItStarts, AllRun, Refines, Follows;
    forall t, g: Flow | Works(b, entry, written, t, g) && Follows(guesses, t)
      ensures types == t && EndsAsItStarts(b, f, types, written) && AllRun(b, f, b.latch)
    {
      NothingLeft(types, t);
      SameChecks(b, entry, written, t, f, g);
    }
  }

  lemma TypingFound(b: Loop, entry: Types, written: seq<nat>, types: Types, f: Flow)
    requires Refines(entry, types) && Undecided(types) == {} && f.From(b, types) && !f.Clashes(b)
    requires EndsAsItStarts(b, f, types, written) && AllRun(b, f, b.latch)
    ensures Works(b, entry, written, types, f)
  {
  }

  lemma NothingLeft(types: Types, t: Types)
    requires Refines(types, t) && Undecided(types) == {}
    ensures types == t
  {
    forall r | r in types
      ensures types[r] == t[r]
    {
      assert r !in Undecided(types);
    }
  }

  lemma SameChecks(b: Loop, entry: Types, written: seq<nat>, t: Types, f: Flow, g: Flow)
    requires JumpsStay(b) && f.From(b, t) && f.Fits(b) && Works(b, entry, written, t, g)
    ensures EndsAsItStarts(b, f, t, written) && AllRun(b, f, b.latch)
  {
    hide Loop.Visited, Flow.Merged, Result, Runs, Flow.Clashes;
    EndVisited(b);
    FlowUnique(b, f, g, t, b.latch);
    forall ip | b.start <= ip < b.latch && b.Visited(ip)
      ensures Runs(b.p, b.p.code[ip], f.At(b, ip), ResultAt(f.results, ip))
    {
      FlowUnique(b, f, g, t, ip);
      assert Runs(b.p, b.p.code[ip], g.At(b, ip), ResultAt(g.results, ip));
    }
  }

  lemma NoneUndecided(entry: Types, types: Types, liveIn: seq<nat>)
    requires forall r :: r in Undecided(entry) ==> r in liveIn
    requires Undecided(types) <= Undecided(entry)
    requires forall r :: r in liveIn ==> r in types && types[r] != AnyKind
    ensures Undecided(types) == {}
  {
  }

  lemma FewerUndecided(before: Types, after: Types)
    requires Undecided(after) < Undecided(before)
    ensures |Undecided(after)| < |Undecided(before)|
  {
    SubsetSize(Undecided(after), Undecided(before));
  }

  lemma SubsetSize(a: set<nat>, b: set<nat>)
    requires a < b
    ensures |a| < |b|
  {
    assert b == a + (b - a);
    assert |b| == |a| + |b - a|;
    assert b - a != {};
  }

  /** Give undecided live-in registers the types they end the iteration with;
      if that changes nothing, the least register still undecided, or -1. */
  method DecideByEnd(types: Types, end: Types, liveIn: seq<nat>) returns (types': Types, changed: bool, undecided: int)
    requires forall r :: r in liveIn ==> r in types
    ensures types'.Keys == types.Keys
    ensures forall r :: r in types && types[r] != AnyKind ==> types'[r] == types[r]
    ensures forall r :: r in types && types'[r] != types[r] ==> r in liveIn && r in end && types'[r] == end[r]
    ensures forall r :: r in liveIn && types[r] == AnyKind ==> types'[r] == TypeOf(end, r)
    ensures changed ==> Undecided(types') < Undecided(types)
    ensures !changed ==> types' == types
    ensures !changed && undecided < 0 ==> undecided == -1 && forall r :: r in liveIn ==> types[r] != AnyKind
    ensures !changed && undecided >= 0 ==>
      undecided in liveIn && types[undecided] == AnyKind && forall r :: r in liveIn && types[r] == AnyKind ==> undecided <= r
  {
    types', changed, undecided := types, false, -1;
    var n := 0;
    while n < |liveIn|
      invariant 0 <= n <= |liveIn|
      invariant types'.Keys == types.Keys
      invariant forall r :: r in types ==> types'[r] == types[r] || types[r] == AnyKind != types'[r]
      invariant forall r :: r in types && types'[r] != types[r] ==> r in liveIn && r in end && types'[r] == end[r]
      invariant forall k :: 0 <= k < n && types[liveIn[k]] == AnyKind ==> types'[liveIn[k]] == TypeOf(end, liveIn[k])
      invariant if changed then exists r :: r in types && types[r] == AnyKind != types'[r] else types' == types
    {
      var r := liveIn[n];
      if r in end && end[r] != AnyKind && types'[r] == AnyKind {
        types', changed := types'[r := end[r]], true;
        assert types[r] == AnyKind != types'[r];
      }
      n := n + 1;
    }
    if !changed {
      n := 0;
      while n < |liveIn|
        invariant 0 <= n <= |liveIn|
        invariant undecided < 0 ==> undecided == -1 && forall k :: 0 <= k < n ==> types[liveIn[k]] != AnyKind
        invariant undecided >= 0 ==> undecided in liveIn && types[undecided] == AnyKind
        invariant undecided >= 0 ==> forall k :: 0 <= k < n && types[liveIn[k]] == AnyKind ==> undecided <= liveIn[k]
      {
        var r := liveIn[n];
        if types'[r] == AnyKind && (undecided < 0 || r < undecided) {
          undecided := r;
        }
        n := n + 1;
      }
    } else {
      var r :| r in types && types[r] == AnyKind != types'[r];
      assert r in Undecided(types) && r !in Undecided(types');
    }
  }
}
