/** A loop body and the types of its registers: the flow of types from pc to pc,
    computed in one pass. */
module KernelFlow {
  import opened Wrappers
  import opened Bytecode

  // ---------- Types of registers ----------

  /** What the planner knows of a number's type. */
  datatype Kind = AnyKind | FloatKind | IntKind

  /** The types of the registers that hold numbers at a pc. */
  type Types = map<nat, Kind>

  function ConstKind(v: Value): Kind {
    if v.Flt? then FloatKind else if v.Int? then IntKind else AnyKind
  }

  function TypeOf(state: Types, r: nat): Kind {
    if r in state then state[r] else AnyKind
  }

  /** The type of an RK field. */
  function FieldKind(p: Proto, state: Types, field: RK): Kind {
    match field
    case R(r) => TypeOf(state, r)
    case K(k) => ConstKind(Constant(p, k))
  }

  /** The type of a field read as a register number, which no constant is. */
  function RegisterKind(state: Types, field: RK): Kind {
    match field
    case R(r) => TypeOf(state, r)
    case K(_) => AnyKind
  }

  // ---------- The shape of a body ----------

  /** The register an instruction writes a number to. */
  function Writes(i: Instr): Option<nat> {
    match i
    case Move(a, _) => Some(a)
    case LoadConstant(a, _) => Some(a)
    case Arith(_, a, _, _) => Some(a)
    case DivMod(_, a, _, _) => Some(a)
    case UnaryMinus(a, _) => Some(a)
    case Call(a, _, _) => Some(a)
    case GetTable(a, _, _) => Some(a)
    case _ => None
  }

  predicate Mentions(field: RK, a: nat) {
    field == R(a)
  }

  /** Arithmetic that leaves register a alone. */
  predicate Spares(i: Instr, a: nat) {
    match i
    case Move(d, b) => d != a && b != a
    case UnaryMinus(d, b) => d != a && b != a
    case LoadConstant(d, _) => d != a
    case Arith(_, d, rb, rc) => d != a && !Mentions(rb, a) && !Mentions(rc, a)
    case DivMod(_, d, rb, rc) => d != a && !Mentions(rb, a) && !Mentions(rc, a)
    case _ => false
  }

  /** A loop of p: its body runs from start up to the FORLOOP at latch. */
  datatype Loop = Loop(p: Proto, start: int, latch: int)
  {
    predicate Valid() {
      0 <= start <= latch < |p.code|
    }

    /** The target of a test or jump that a kernel can follow: later in the body,
        or its FORLOOP, with nothing to close. */
    function KernelJump(ip: int): Option<int>
      requires 0 <= ip < |p.code|
    {
      var i := p.code[ip];
      if !i.Compare? && !i.Jump? then None else
      var j := if i.Compare? then ip + 1 else ip;
      match JumpFrom(p, j)
      case Some(t) => if j < t <= latch then Some(t) else None
      case None => None
    }

    /** The pcs the planner and the emitter stop at: a test takes the JMP
        after it along. */
    predicate Visited(ip: int)
      decreases ip - start
    {
      0 <= start <= ip < |p.code| &&
      (ip == start
       || (Visited(ip - 1) && !p.code[ip - 1].Compare?)
       || (ip - 2 >= start && Visited(ip - 2) && p.code[ip - 2].Compare?))
    }

    /** A pc that runs on to ip without a jump. */
    predicate Falls(j: int, ip: int)
      requires 0 <= j < |p.code|
    {
      match p.code[j]
      case Compare(_, _, _, _) => ip == j + 2
      case Jump(_, _) => false
      case _ => ip == j + 1
    }

    /** j is a pc of the body that ip may run after. */
    predicate Edge(j: int, ip: int)
      requires Valid()
    {
      start <= j < latch && Visited(j) && (Falls(j, ip) || KernelJump(j) == Some(ip))
    }

    /** Some earlier jump leaps over ip. */
    predicate Skipped(ip: int)
      requires Valid() && ip <= latch
    {
      exists j :: start <= j < ip && Leaps(j, ip)
    }

    predicate Leaps(j: int, ip: int)
      requires 0 <= j < |p.code|
    {
      KernelJump(j).Some? && KernelJump(j).value > ip
    }

    predicate LandsAt(j: int)
      requires Valid()
    {
      exists from :: start <= from < latch && KernelJump(from) == Some(j)
    }

    /** The call that takes register a from j on, if only instructions that spare a
        come first and no jump lands on the way. */
    function CallFrom(a: nat, j: int): Option<int>
      requires Valid() && 0 <= j
      decreases latch - j
    {
      if j >= latch || LandsAt(j) then None
      else if p.code[j].Call? then (if p.code[j] == Call(a, 2, 2) then Some(j) else None)
      else if Spares(p.code[j], a) then CallFrom(a, j + 1)
      else None
    }

    function IntrinsicCall(ip: int): Option<int>
      requires Valid() && 0 <= ip < latch && p.code[ip].GetUpValue?
    {
      CallFrom(p.code[ip].a, ip + 1)
    }

    lemma StartVisited()
      requires Valid()
      ensures Visited(start)
    {
    }

    /** The JMP that a test takes along is not visited itself. */
    lemma {:induction false} NotConsumed(j: int)
      requires Visited(j) && p.code[j].Compare?
      ensures !Visited(j + 1)
      decreases j - start
    {
      if Visited(j + 1) {
        NotConsumed(j - 1);
      }
    }

    /** The pc the passes stop at after ip. */
    function NextPc(ip: int): int
      requires 0 <= ip < |p.code|
    {
      if p.code[ip].Compare? then ip + 2 else ip + 1
    }

    /** Only the pc stopped at before NextPc(ip) may run on to it. */
    lemma FallsFromLast(ip: int, j: int)
      requires Visited(ip) && Visited(j) && j <= ip && Falls(j, NextPc(ip))
      ensures j == ip
    {
      if j < ip {
        NotConsumed(j);
      }
    }

    /** What CallFrom finds, spelled out. */
    lemma {:induction false} CallFromSpans(a: nat, j: int)
      requires Valid() && 0 <= j && CallFrom(a, j).Some?
      ensures var call := CallFrom(a, j).value;
        && j <= call < latch && p.code[call] == Call(a, 2, 2)
        && (forall i :: j <= i < call ==> Spares(p.code[i], a))
        && (forall i :: j <= i <= call ==> !LandsAt(i))
      decreases latch - j
    {
      if !p.code[j].Call? {
        CallFromSpans(a, j + 1);
      }
    }
  }

  // ---------- The flow of types ----------

  /** What i writes on operands of these kinds, AnyKind if that is open, and
      whether it can run on them. */
  function Result(p: Proto, i: Instr, state: Types): (Kind, bool) {
    match i
    case Move(_, b) => (TypeOf(state, b), true)
    case UnaryMinus(_, b) => (TypeOf(state, b), true)
    case LoadConstant(_, bx) => (ConstKind(Constant(p, bx)), true)
    case Arith(op, _, rb, rc) =>
      if op.Div? then (FloatKind, true) else
      var b, c := FieldKind(p, state, rb), FieldKind(p, state, rc);
      if b.FloatKind? || c.FloatKind? then (FloatKind, true)
      else if b.IntKind? && c.IntKind? then (IntKind, true)
      else (AnyKind, true)
    case Call(_, _, _) => (FloatKind, true)
    case GetTable(_, _, _) => (FloatKind, true)
    case DivMod(_, _, rb, _) =>
      var b := RegisterKind(state, rb);
      (b, !b.FloatKind?)
    case _ => (AnyKind, true)
  }

  /** t is u, unless u is still undecided. */
  predicate Decides(u: Kind, t: Kind) {
    u == t || u == AnyKind
  }

  /** A solution of the dataflow: types at every pc, and kinds of results. */
  datatype Flow = Flow(at: seq<Types>, results: map<int, Kind>)
  {
    ghost predicate Fits(b: Loop) {
      b.Valid() && |at| == b.latch - b.start + 1
    }

    /** The types before ip. */
    ghost function At(b: Loop, ip: int): Types
      requires Fits(b) && b.start <= ip <= b.latch
    {
      at[ip - b.start]
    }

    /** The types after the instruction at j. */
    ghost function Out(b: Loop, j: int): Types
      requires Fits(b) && b.start <= j <= b.latch
    {
      var w := Writes(b.p.code[j]);
      if w.Some? && j in results then At(b, j)[w.value := results[j]] else At(b, j)
    }

    /** Every way to ip defines r, and there is one. */
    ghost predicate Everywhere(b: Loop, ip: int, r: nat)
      requires Fits(b)
    {
      && (exists j :: b.Edge(j, ip))
      && (forall j :: b.Edge(j, ip) ==> r in Out(b, j))
    }

    /** At ip the registers that every way there defines have types that
        agree with each way's. */
    ghost predicate Merged(b: Loop, ip: int)
      requires Fits(b) && b.start < ip <= b.latch
    {
      && (forall r :: r in At(b, ip) <==> Everywhere(b, ip, r))
      && (forall r, j :: r in At(b, ip) && b.Edge(j, ip) ==> r in Out(b, j) && Decides(Out(b, j)[r], At(b, ip)[r]))
      && (forall r :: r in At(b, ip) ==> SomeGives(b, ip, r))
    }

    /** Two ways to a pc give a register different types, and all ways from pcs before
        the later one define it. */
    ghost predicate Clash(b: Loop, ip: int, r: nat, i: int, j: int)
      requires Fits(b)
    {
      && b.start < ip <= b.latch && b.Visited(ip) && b.Edge(i, ip) && b.Edge(j, ip) && i < j
      && (forall h :: b.Edge(h, ip) && h <= j ==> r in Out(b, h))
      && r in Out(b, i) && r in Out(b, j) && Differ(Out(b, i)[r], Out(b, j)[r])
    }

    ghost predicate Clashes(b: Loop)
      requires Fits(b)
    {
      exists ip, r, i, j :: Clash(b, ip, r, i, j)
    }

    /** Some way to ip gives r its type there. */
    ghost predicate SomeGives(b: Loop, ip: int, r: nat)
      requires Fits(b) && b.start <= ip <= b.latch
    {
      r in At(b, ip) && exists j :: b.Edge(j, ip) && r in Out(b, j) && Out(b, j)[r] == At(b, ip)[r]
    }

    /** These are the types that flow through b from types on entry. */
    ghost predicate From(b: Loop, types: Types) {
      && Fits(b)
      && at[0] == types
      && (forall ip :: b.start < ip <= b.latch && b.Visited(ip) ==> Merged(b, ip))
      && (forall ip :: b.start <= ip < b.latch && b.Visited(ip) && Writes(b.p.code[ip]).Some? ==>
            ip in results && Result(b.p, b.p.code[ip], At(b, ip)) == (results[ip], true))
      && (forall ip :: ip in results ==> b.start <= ip < b.latch && b.Visited(ip) && Writes(b.p.code[ip]).Some?)
    }
  }

  /** Merging of the types where paths meet. */
  ghost predicate MergeOf(states: seq<Types>, merged: Types) {
    && (|states| == 0 ==> merged == map[])
    && (|states| > 0 ==> forall r :: r in merged <==> (forall k :: 0 <= k < |states| ==> r in states[k]))
    && (forall r, k :: r in merged && 0 <= k < |states| ==> r in states[k] && Decides(states[k][r], merged[r]))
  }

  /** Two of the states give a register different types, and all before the later
      one have it. */
  ghost predicate Conflict(states: seq<Types>) {
    exists r: nat, m: nat, k: nat :: ConflictPair(states, r, m, k)
  }

  ghost predicate ConflictPair(states: seq<Types>, r: nat, m: nat, k: nat) {
    && m < k < |states| && (forall h :: 0 <= h <= k ==> r in states[h])
    && Differ(states[m][r], states[k][r])
  }

  predicate Differ(t: Kind, u: Kind) {
    t != AnyKind && u != AnyKind && t != u
  }

  ghost predicate Sourced(states: seq<Types>, merged: Types) {
    forall r :: r in merged ==> exists k :: 0 <= k < |states| && r in states[k] && states[k][r] == merged[r]
  }

  /** Keep in out what s also has, with the type that decides both; false
      where they differ. */
  method MergeInto(out: Types, s: Types) returns (merged: Types, ok: bool)
    ensures ok ==> merged.Keys == out.Keys * s.Keys
    ensures ok ==> forall r :: r in merged ==> Decides(out[r], merged[r]) && Decides(s[r], merged[r])
    ensures ok ==> forall r :: r in merged ==> merged[r] == out[r] || merged[r] == s[r]
    ensures !ok ==> exists r :: r in out && r in s && Differ(out[r], s[r])
  {
    merged := out;
    var keys := out.Keys;
    while keys != {}
      invariant keys <= merged.Keys <= out.Keys
      invariant forall r :: r in out ==> (r in merged <==> r in keys || r in s)
      invariant forall r :: r in keys ==> merged[r] == out[r]
      invariant forall r :: r in merged && r !in keys ==>
                  && Decides(s[r], merged[r]) && Decides(out[r], merged[r])
                  && (merged[r] == out[r] || merged[r] == s[r])
      decreases |keys|
    {
      var r :| r in keys;
      keys := keys - {r};
      if r !in s {
        merged := merged - {r};
      } else if merged[r] == s[r] || s[r] == AnyKind {
      } else if merged[r] == AnyKind {
        merged := merged[r := s[r]];
      } else {
        return merged, false;
      }
    }
    return merged, true;
  }

  /** mergeTypes: the registers all the states have, or false just where two of
      them differ before the register is found missing. */
  method MergeTypes(states: seq<Types>) returns (merged: Types, ok: bool)
    ensures ok ==> MergeOf(states, merged) && Sourced(states, merged)
    ensures ok <==> !Conflict(states)
  {
    if |states| == 0 {
      return map[], true;
    }
    merged := states[0];
    var m := 1;
    while m < |states|
      invariant 1 <= m <= |states|
      invariant MergeOf(states[..m], merged) && Sourced(states[..m], merged) && !Conflict(states[..m])
    {
      var next: Types;
      next, ok := MergeInto(merged, states[m]);
      if !ok {
        FoundConflict(states, m, merged);
        return merged, false;
      }
      MergeStep(states, m, merged, next);
      SourceStep(states, m, merged, next);
      NoConflictStep(states, m, merged, next);
      merged := next;
      m := m + 1;
    }
    assert states[..m] == states;
    return merged, true;
  }

  lemma FoundConflict(states: seq<Types>, m: nat, merged: Types)
    requires 1 <= m < |states| && MergeOf(states[..m], merged) && Sourced(states[..m], merged)
    requires exists r :: r in merged && r in states[m] && Differ(merged[r], states[m][r])
    ensures Conflict(states)
  {
    var r: nat :| r in merged && r in states[m] && Differ(merged[r], states[m][r]);
    var k: nat :| k < m && r in states[..m][k] && states[..m][k][r] == merged[r];
    forall h | 0 <= h <= m
      ensures r in states[h]
    {
      if h < m {
        assert r in states[..m][h];
      }
    }
    assert ConflictPair(states, r, k, m);
  }

  lemma MergeStep(states: seq<Types>, m: int, before: Types, after: Types)
    requires 1 <= m < |states| && MergeOf(states[..m], before)
    requires forall r :: r in after <==> r in before && r in states[m]
    requires forall r :: r in after ==> Decides(states[m][r], after[r]) && Decides(before[r], after[r])
    ensures MergeOf(states[..m + 1], after)
  {
    var s, t := states[..m], states[..m + 1];
    assert t == s + [states[m]];
    forall r
      ensures r in after <==> (forall k :: 0 <= k < |t| ==> r in t[k])
    {
      if forall k :: 0 <= k < |t| ==> r in t[k] {
        assert forall k :: 0 <= k < |s| ==> r in s[k] by {
          forall k | 0 <= k < |s| ensures r in s[k] { assert t[k] == s[k]; }
        }
        assert r in t[m];
      }
    }
    forall r, k | r in after && 0 <= k < |t|
      ensures r in t[k] && Decides(t[k][r], after[r])
    {
      if k < m {
        assert r in s[k] && Decides(s[k][r], before[r]);
      }
    }
  }

  lemma SourceStep(states: seq<Types>, m: int, before: Types, after: Types)
    requires 1 <= m < |states| && Sourced(states[..m], before)
    requires forall r :: r in after ==> r in before && r in states[m] && (after[r] == before[r] || after[r] == states[m][r])
    ensures Sourced(states[..m + 1], after)
  {
  }

  lemma NoConflictStep(states: seq<Types>, m: nat, before: Types, after: Types)
    requires 1 <= m < |states| && MergeOf(states[..m], before) && !Conflict(states[..m])
    requires forall r :: r in after <==> r in before && r in states[m]
    requires forall r :: r in after ==> Decides(states[m][r], after[r]) && Decides(before[r], after[r])
    ensures !Conflict(states[..m + 1])
  {
    var t := states[..m + 1];
    forall r: nat, i: nat, k: nat
      ensures !ConflictPair(t, r, i, k)
    {
      if ConflictPair(t, r, i, k) {
        if k < m {
          PairBefore(states, m, r, i, k);
        } else {
          AgreesWithLast(states, m, t, before, after, r, i);
        }
      }
    }
  }

  lemma PairBefore(states: seq<Types>, m: nat, r: nat, i: nat, k: nat)
    requires k < m < |states| && ConflictPair(states[..m + 1], r, i, k)
    ensures ConflictPair(states[..m], r, i, k)
  {
    forall h | 0 <= h <= k
      ensures r in states[..m][h]
    {
      assert r in states[..m + 1][h];
    }
  }

  lemma AgreesWithLast(states: seq<Types>, m: nat, t: seq<Types>, before: Types, after: Types, r: nat, i: nat)
    requires i < m < |states| && MergeOf(states[..m], before)
    requires forall r :: r in after <==> r in before && r in states[m]
    requires forall r :: r in after ==> Decides(states[m][r], after[r]) && Decides(before[r], after[r])
    requires t == states[..m + 1] && forall h :: 0 <= h <= m ==> r in t[h]
    ensures r in states[i] && r in states[m] && !Differ(states[i][r], states[m][r])
  {
    var s := states[..m];
    forall h | 0 <= h < m
      ensures r in s[h]
    {
      assert r in t[h];
    }
    assert r in t[m];
    assert r in before && r in after;
    assert Decides(s[i][r], before[r]);
  }

  // ---------- Computing the flow ----------

  /** Every test and jump of the body goes somewhere a kernel can follow. */
  ghost predicate JumpsStay(b: Loop) {
    && b.Valid()
    && (forall ip :: b.start <= ip < b.latch && b.Visited(ip) && (b.p.code[ip].Compare? || b.p.code[ip].Jump?) ==>
          b.KernelJump(ip).Some?)
  }

  /** outs has the types after each pc the pass has stopped at before ip. */
  ghost predicate Passed(b: Loop, outs: map<int, Types>, ip: int) {
    b.Valid() && forall j :: j in outs <==> b.start <= j < ip && j < b.latch && b.Visited(j)
  }

  /** The pcs before upTo that jump to t, in order. */
  function Sources(b: Loop, t: int, upTo: int): seq<int>
    requires b.Valid() && upTo <= b.latch + 1
    decreases upTo - b.start
  {
    if upTo <= b.start then []
    else Sources(b, t, upTo - 1) + (if b.Visited(upTo - 1) && b.KernelJump(upTo - 1) == Some(t) then [upTo - 1] else [])
  }

  lemma {:induction false} SourcesAre(b: Loop, t: int, upTo: int)
    requires b.Valid() && upTo <= b.latch + 1
    ensures forall j :: j in Sources(b, t, upTo) <==> b.start <= j < upTo && b.Visited(j) && b.KernelJump(j) == Some(t)
    ensures forall p, q :: 0 <= p < q < |Sources(b, t, upTo)| ==> Sources(b, t, upTo)[p] < Sources(b, t, upTo)[q]
    decreases upTo - b.start
  {
    hide Loop.Visited, Loop.KernelJump;
    if upTo > b.start {
      SourcesAre(b, t, upTo - 1);
      var less := Sources(b, t, upTo - 1);
      forall p | 0 <= p < |less|
        ensures less[p] < upTo - 1
      {
        assert less[p] in less;
      }
    }
  }

  /** waiting are the types on the jumps to t taken before upTo, in order. */
  ghost predicate Waiting(b: Loop, outs: map<int, Types>, waiting: seq<Types>, t: int, upTo: int)
    requires b.Valid() && upTo <= b.latch
  {
    var from := Sources(b, t, upTo);
    |waiting| == |from| && forall k :: 0 <= k < |from| ==> from[k] in outs && waiting[k] == outs[from[k]]
  }

  /** cur are the types that run on to ip, None if nothing does. */
  ghost predicate RunsOn(b: Loop, outs: map<int, Types>, cur: Option<Types>, ip: int)
    requires b.Valid() && forall j :: j in outs ==> b.start <= j < b.latch
  {
    && (forall j :: j in outs && b.Falls(j, ip) ==> cur == Some(outs[j]))
    && (cur.Some? ==> exists j :: j in outs && b.Falls(j, ip) && outs[j] == cur.value)
  }

  ghost predicate MergedFrom(b: Loop, outs: map<int, Types>, ip: int, here: Types)
    requires b.Valid() && forall j :: j in outs ==> b.start <= j < b.latch
  {
    && (forall r :: r in here <==> ComesEverywhere(b, outs, ip, r))
    && (forall r, j :: r in here && j in outs && Comes(b, j, ip) ==> r in outs[j] && Decides(outs[j][r], here[r]))
    && (forall r :: r in here ==> ComesWith(b, outs, ip, r, here[r]))
    && !ConflictAt(b, outs, ip)
  }

  /** Two ways to ip give a register different types, and all from before the later
      one define it. */
  ghost predicate ConflictAt(b: Loop, outs: map<int, Types>, ip: int)
    requires b.Valid() && forall j :: j in outs ==> b.start <= j < b.latch
  {
    exists r, i, j :: DifferAt(b, outs, ip, r, i, j)
  }

  ghost predicate DifferAt(b: Loop, outs: map<int, Types>, ip: int, r: nat, i: int, j: int)
    requires b.Valid() && forall j :: j in outs ==> b.start <= j < b.latch
  {
    && i in outs && j in outs && Comes(b, i, ip) && Comes(b, j, ip) && i < j
    && (forall h :: h in outs && Comes(b, h, ip) && h <= j ==> r in outs[h])
    && r in outs[i] && r in outs[j] && Differ(outs[i][r], outs[j][r])
  }

  ghost predicate ComesWith(b: Loop, outs: map<int, Types>, ip: int, r: nat, t: Kind)
    requires b.Valid() && forall j :: j in outs ==> b.start <= j < b.latch
  {
    exists j :: j in outs && Comes(b, j, ip) && r in outs[j] && outs[j][r] == t
  }

  predicate Comes(b: Loop, j: int, ip: int)
    requires b.Valid() && b.start <= j < b.latch
  {
    b.Falls(j, ip) || b.KernelJump(j) == Some(ip)
  }

  ghost predicate ComesEverywhere(b: Loop, outs: map<int, Types>, ip: int, r: nat)
    requires b.Valid() && forall j :: j in outs ==> b.start <= j < b.latch
  {
    && (exists j :: j in outs && Comes(b, j, ip))
    && (forall j :: j in outs && Comes(b, j, ip) ==> r in outs[j])
  }

  /** The states on the ways to ip, by the pcs they come from, in order. */
  ghost predicate InOrder(b: Loop, outs: map<int, Types>, states: seq<Types>, ip: int, ways: seq<int>)
    requires b.Valid() && forall j :: j in outs ==> b.start <= j < b.latch
  {
    && |ways| == |states|
    && (forall k :: 0 <= k < |ways| ==> ways[k] in outs && Comes(b, ways[k], ip) && states[k] == outs[ways[k]])
    && (forall j :: j in outs && Comes(b, j, ip) ==> j in ways)
    && (forall p, q :: 0 <= p < q < |ways| ==> ways[p] <= ways[q])
  }

  /** They are those that wait and what runs on. */
  lemma WaysTo(b: Loop, outs: map<int, Types>, waiting: seq<Types>, cur: Option<Types>, ip: int) returns (ways: seq<int>)
    requires b.Valid() && b.start <= ip <= b.latch && Passed(b, outs, ip)
    requires forall j :: j in outs ==> b.start <= j < b.latch
    requires Waiting(b, outs, waiting, ip, ip) && RunsOn(b, outs, cur, ip)
    ensures InOrder(b, outs, waiting + (if cur.Some? then [cur.value] else []), ip, ways)
  {
    hide Loop.Visited, Loop.KernelJump;
    SourcesAre(b, ip, ip);
    ways := Sources(b, ip, ip);
    forall k | 0 <= k < |ways|
      ensures ways[k] in outs && Comes(b, ways[k], ip)
    {
      assert ways[k] in ways;
    }
    if cur.Some? {
      var last :| last in outs && b.Falls(last, ip) && outs[last] == cur.value;
      forall j | j in outs
        ensures j <= last && (b.Falls(j, ip) ==> j == last)
      {
        LastBefore(b, last, ip, j);
        if b.Falls(j, ip) {
          LastBefore(b, j, ip, last);
        }
      }
      ways := ways + [last];
      assert last == ways[|ways| - 1];
      forall j | j in outs && Comes(b, j, ip)
        ensures j in ways
      {
        if b.KernelJump(j) == Some(ip) {
          assert j in Sources(b, ip, ip);
        }
      }
    }
  }

  lemma LastBefore(b: Loop, last: int, ip: int, j: int)
    requires b.Valid() && b.start <= last < b.latch && b.Visited(last) && b.Falls(last, ip) && j < ip && b.Visited(j)
    ensures j <= last
  {
    if b.p.code[last].Compare? {
      b.NotConsumed(last);
    }
  }

  /** The states that meet at ip are those on its edges. */
  lemma StatesAreEdges(b: Loop, outs: map<int, Types>, states: seq<Types>, ways: seq<int>, ip: int, merged: Types)
    requires b.Valid() && forall j :: j in outs ==> b.start <= j < b.latch
    requires InOrder(b, outs, states, ip, ways) && MergeOf(states, merged) && Sourced(states, merged) && !Conflict(states)
    ensures MergedFrom(b, outs, ip, merged)
  {
    hide Comes, Conflict, ConflictAt;
    forall r
      ensures r in merged <==> ComesEverywhere(b, outs, ip, r)
    {
      MeetingRegister(b, outs, states, ways, ip, merged, r);
    }
    forall r, j | r in merged && j in outs && Comes(b, j, ip)
      ensures r in outs[j] && Decides(outs[j][r], merged[r])
    {
      var k :| 0 <= k < |ways| && ways[k] == j;
      assert r in states[k] && Decides(states[k][r], merged[r]);
    }
    forall r | r in merged
      ensures ComesWith(b, outs, ip, r, merged[r])
    {
      var k :| 0 <= k < |states| && r in states[k] && states[k][r] == merged[r];
      assert ways[k] in outs;
    }
    ConflictsMeet(b, outs, states, ways, ip);
  }

  lemma MeetingRegister(b: Loop, outs: map<int, Types>, states: seq<Types>, ways: seq<int>, ip: int, merged: Types, r: nat)
    requires b.Valid() && forall j :: j in outs ==> b.start <= j < b.latch
    requires InOrder(b, outs, states, ip, ways) && MergeOf(states, merged)
    ensures r in merged <==> ComesEverywhere(b, outs, ip, r)
  {
    hide Comes;
    if ComesEverywhere(b, outs, ip, r) {
      var j :| j in outs && Comes(b, j, ip);
      assert j in ways;
      forall k | 0 <= k < |states|
        ensures r in states[k]
      {
        assert ways[k] in outs;
      }
    }
    if r in merged {
      assert ways[0] in outs && Comes(b, ways[0], ip);
      forall j | j in outs && Comes(b, j, ip)
        ensures r in outs[j]
      {
        var k :| 0 <= k < |ways| && ways[k] == j;
        assert r in states[k];
      }
    }
  }

  /** States conflict where ways do. */
  lemma ConflictsMeet(b: Loop, outs: map<int, Types>, states: seq<Types>, ways: seq<int>, ip: int)
    requires b.Valid() && forall j :: j in outs ==> b.start <= j < b.latch
    requires InOrder(b, outs, states, ip, ways)
    ensures Conflict(states) <==> ConflictAt(b, outs, ip)
  {
    hide Comes, Differ;
    if Conflict(states) {
      var r: nat, m: nat, k: nat :| ConflictPair(states, r, m, k);
      StatesDiffer(b, outs, states, ways, ip, r, m, k);
    }
    if ConflictAt(b, outs, ip) {
      var r, i, j :| DifferAt(b, outs, ip, r, i, j);
      WaysDiffer(b, outs, states, ways, ip, r, i, j);
    }
  }

  lemma StatesDiffer(b: Loop, outs: map<int, Types>, states: seq<Types>, ways: seq<int>, ip: int, r: nat, m: nat, k: nat)
    requires b.Valid() && forall j :: j in outs ==> b.start <= j < b.latch
    requires InOrder(b, outs, states, ip, ways) && ConflictPair(states, r, m, k)
    ensures DifferAt(b, outs, ip, r, ways[m], ways[k])
  {
    hide Comes;
    assert ways[m] <= ways[k];
    forall h | h in outs && Comes(b, h, ip) && h <= ways[k]
      ensures r in outs[h]
    {
      var q :| 0 <= q < |ways| && ways[q] == h;
      if q > k {
        assert ways[k] <= ways[q];
      }
      assert r in states[if q > k then k else q];
    }
  }

  lemma WaysDiffer(b: Loop, outs: map<int, Types>, states: seq<Types>, ways: seq<int>, ip: int, r: nat, i: int, j: int)
    requires b.Valid() && forall j :: j in outs ==> b.start <= j < b.latch
    requires InOrder(b, outs, states, ip, ways) && DifferAt(b, outs, ip, r, i, j)
    ensures Conflict(states)
  {
    hide Comes;
    var m: nat :| m < |ways| && ways[m] == i;
    var k: nat :| k < |ways| && ways[k] == j;
    forall h | 0 <= h <= k
      ensures r in states[h]
    {
      assert h < k ==> ways[h] <= ways[k];
      assert ways[h] in outs && Comes(b, ways[h], ip);
    }
    assert ConflictPair(states, r, m, k);
  }

  /** The pass so far: what it recorded for every pc it has stopped at. */
  ghost predicate Recorded(b: Loop, outs: map<int, Types>, at: seq<Types>, results: map<int, Kind>, types: Types) {
    && b.Valid()
    && (forall j :: j in outs ==> b.start <= j < b.latch && b.Visited(j) && j - b.start < |at|)
    && (forall j :: j in outs ==> RecordedAt(b, outs[j], at[j - b.start], results, j))
    && (forall j :: j in outs && j > b.start ==> MergedFrom(b, outs, j, at[j - b.start]))
    && (b.start in outs ==> at[0] == types)
    && (forall j :: j in results ==> j in outs && Writes(b.p.code[j]).Some?)
  }

  ghost predicate RecordedAt(b: Loop, out: Types, here: Types, results: map<int, Kind>, j: int)
    requires b.Valid() && b.start <= j < b.latch
  {
    match Writes(b.p.code[j])
    case None => out == here
    case Some(a) => j in results && out == here[a := results[j]] && Result(b.p, b.p.code[j], here) == (results[j], true)
  }

  lemma NeverBack(b: Loop, ip: int, t: int)
    requires b.Valid() && b.start <= t <= ip < b.latch
    ensures !Comes(b, ip, t)
  {
  }

  /** Jumps go forward: merging at a pc only needs the pcs before it. */
  lemma MergedStays(b: Loop, outs: map<int, Types>, ip: int, out: Types, t: int, here: Types)
    requires JumpsStay(b) && Passed(b, outs, ip) && b.start <= ip < b.latch && b.Visited(ip)
    requires b.start <= t <= ip && MergedFrom(b, outs, t, here)
    ensures MergedFrom(b, outs[ip := out], t, here)
  {
    hide Loop.Visited, Comes, ComesWith, ComesEverywhere, ConflictAt;
    var outs' := outs[ip := out];
    NeverBack(b, ip, t);
    PassedInside(b, outs, ip);
    forall r
      ensures ComesEverywhere(b, outs, t, r) <==> ComesEverywhere(b, outs', t, r)
    {
      StillEverywhere(b, outs, ip, out, t, r);
    }
    forall r | r in here
      ensures ComesWith(b, outs', t, r, here[r])
    {
      assert ComesWith(b, outs, t, r, here[r]);
      StillComes(b, outs, ip, out, t, r, here[r]);
    }
    StillNoConflict(b, outs, ip, out, t);
  }

  lemma StillNoConflict(b: Loop, outs: map<int, Types>, ip: int, out: Types, t: int)
    requires b.Valid() && ip !in outs && b.start <= ip < b.latch && forall j :: j in outs ==> b.start <= j < b.latch
    requires !Comes(b, ip, t) && !ConflictAt(b, outs, t)
    ensures !ConflictAt(b, outs[ip := out], t)
  {
    hide Comes, Differ, DifferAt;
    var outs' := outs[ip := out];
    if ConflictAt(b, outs', t) {
      var r, i, j :| DifferAt(b, outs', t, r, i, j);
      DifferedBefore(b, outs, ip, out, t, r, i, j);
    }
  }

  lemma DifferedBefore(b: Loop, outs: map<int, Types>, ip: int, out: Types, t: int, r: nat, i: int, j: int)
    requires b.Valid() && ip !in outs && b.start <= ip < b.latch && forall j :: j in outs ==> b.start <= j < b.latch
    requires !Comes(b, ip, t) && DifferAt(b, outs[ip := out], t, r, i, j)
    ensures DifferAt(b, outs, t, r, i, j)
  {
    hide Comes, Differ;
    forall h | h in outs && Comes(b, h, t) && h <= j
      ensures r in outs[h]
    {
      assert h in outs[ip := out] && outs[ip := out][h] == outs[h];
    }
  }

  lemma StillEverywhere(b: Loop, outs: map<int, Types>, ip: int, out: Types, t: int, r: nat)
    requires b.Valid() && ip !in outs && b.start <= ip < b.latch && forall j :: j in outs ==> b.start <= j < b.latch
    requires !Comes(b, ip, t)
    ensures ComesEverywhere(b, outs, t, r) <==> ComesEverywhere(b, outs[ip := out], t, r)
  {
    hide Comes;
    var outs' := outs[ip := out];
    if ComesEverywhere(b, outs, t, r) {
      var j :| j in outs && Comes(b, j, t);
      assert j in outs' && Comes(b, j, t);
    }
    if ComesEverywhere(b, outs', t, r) {
      var j :| j in outs' && Comes(b, j, t);
      assert j in outs && Comes(b, j, t);
      forall i | i in outs && Comes(b, i, t) ensures r in outs[i] {
        assert i in outs' && outs'[i] == outs[i];
      }
    }
  }

  lemma StillComes(b: Loop, outs: map<int, Types>, ip: int, out: Types, t: int, r: nat, k: Kind)
    requires b.Valid() && ip !in outs && b.start <= ip < b.latch && forall j :: j in outs ==> b.start <= j < b.latch
    requires ComesWith(b, outs, t, r, k)
    ensures ComesWith(b, outs[ip := out], t, r, k)
  {
    hide Comes;
    var j :| j in outs && Comes(b, j, t) && r in outs[j] && outs[j][r] == k;
    assert j in outs[ip := out] && outs[ip := out][j] == outs[j];
  }

  /** Recording the instruction at ip. */
  lemma RecordStep(b: Loop, outs: map<int, Types>, at: seq<Types>, results: map<int, Kind>, types: Types, ip: int,
                   here: Types, out: Types, results': map<int, Kind>)
    requires JumpsStay(b) && Passed(b, outs, ip) && b.start <= ip < b.latch && b.Visited(ip)
    requires Recorded(b, outs, at, results, types) && |at| == ip - b.start
    requires if ip == b.start then here == types else MergedFrom(b, outs, ip, here)
    requires RecordedAt(b, out, here, results', ip)
    requires results' == match Writes(b.p.code[ip]) case None => results case Some(_) => results[ip := Result(b.p, b.p.code[ip], here).0]
    ensures Recorded(b, outs[ip := out], at + [here], results', types)
  {
    hide MergedFrom, RecordedAt, Loop.Visited, Result;
    var outs', at' := outs[ip := out], at + [here];
    assert ip !in outs;
    forall j | j in outs'
      ensures j - b.start < |at'| && RecordedAt(b, outs'[j], at'[j - b.start], results', j)
    {
      if j != ip {
        assert at'[j - b.start] == at[j - b.start];
        RecordedKept(b, outs[j], at[j - b.start], results, ip, Result(b.p, b.p.code[ip], here).0, j);
      }
    }
    forall j | j in outs' && j > b.start
      ensures MergedFrom(b, outs', j, at'[j - b.start])
    {
      if j != ip {
        assert at'[j - b.start] == at[j - b.start];
        MergedStays(b, outs, ip, out, j, at[j - b.start]);
      } else {
        MergedStays(b, outs, ip, out, ip, here);
      }
    }
  }

  lemma RecordedKept(b: Loop, out: Types, here: Types, results: map<int, Kind>, ip: int, k: Kind, j: int)
    requires b.Valid() && b.start <= j < b.latch && j != ip
    requires RecordedAt(b, out, here, results, j)
    ensures RecordedAt(b, out, here, results[ip := k], j)
  {
  }

  lemma PassedStep(b: Loop, outs: map<int, Types>, ip: int, out: Types)
    requires Passed(b, outs, ip) && b.start <= ip < b.latch && b.Visited(ip)
    ensures Passed(b, outs[ip := out], b.NextPc(ip))
  {
    if b.p.code[ip].Compare? {
      b.NotConsumed(ip);
    }
  }

  lemma WaitingStep(b: Loop, outs: map<int, Types>, waiting: seq<Types>, ip: int, out: Types, t: int)
    requires Passed(b, outs, ip) && b.start <= ip < b.latch && b.Visited(ip) && b.NextPc(ip) <= b.latch
    requires Waiting(b, outs, waiting, t, ip)
    ensures b.KernelJump(ip) != Some(t) ==> Waiting(b, outs[ip := out], waiting, t, b.NextPc(ip))
    ensures b.KernelJump(ip) == Some(t) ==> Waiting(b, outs[ip := out], waiting + [out], t, b.NextPc(ip))
  {
    hide Loop.Visited, Loop.KernelJump;
    var from := Sources(b, t, ip);
    if b.p.code[ip].Compare? {
      b.NotConsumed(ip);
      assert Sources(b, t, ip + 2) == Sources(b, t, ip + 1);
    }
    assert Sources(b, t, b.NextPc(ip)) == Sources(b, t, ip + 1);
    assert Sources(b, t, ip + 1) == from + (if b.KernelJump(ip) == Some(t) then [ip] else []);
  }

  lemma RunsOnStep(b: Loop, outs: map<int, Types>, ip: int, out: Types)
    requires Passed(b, outs, ip) && b.start <= ip < b.latch && b.Visited(ip)
    ensures RunsOn(b, outs[ip := out], if b.p.code[ip].Jump? then None else Some(out), b.NextPc(ip))
  {
    var outs' := outs[ip := out];
    forall j | j in outs' && b.Falls(j, b.NextPc(ip))
      ensures j == ip
    {
      b.FallsFromLast(ip, j);
    }
    if !b.p.code[ip].Jump? {
      assert ip in outs' && b.Falls(ip, b.NextPc(ip));
    }
  }

  /** The lists of states waiting at the pcs from ip on. */
  ghost predicate AllWaiting(b: Loop, outs: map<int, Types>, incoming: seq<seq<Types>>, ip: int)
    requires b.Valid() && forall j :: j in outs ==> b.start <= j < b.latch
  {
    && b.start <= ip <= b.latch && |incoming| == b.latch - b.start + 1
    && (forall t :: ip <= t <= b.latch ==> WaitingAt(b, outs, incoming, t, ip))
  }

  ghost predicate WaitingAt(b: Loop, outs: map<int, Types>, incoming: seq<seq<Types>>, t: int, upTo: int)
    requires b.Valid() && b.start <= t <= b.latch && upTo <= b.latch && |incoming| == b.latch - b.start + 1
  {
    Waiting(b, outs, incoming[t - b.start], t, upTo)
  }

  lemma AllWaitingStep(b: Loop, outs: map<int, Types>, incoming: seq<seq<Types>>, ip: int, out: Types, incoming': seq<seq<Types>>)
    requires JumpsStay(b) && Passed(b, outs, ip) && b.start <= ip < b.latch && b.Visited(ip)
    requires AllWaiting(b, outs, incoming, ip) && |incoming'| == |incoming|
    requires forall t :: b.start <= t <= b.latch ==>
      incoming'[t - b.start] == if b.KernelJump(ip) == Some(t) then incoming[t - b.start] + [out] else incoming[t - b.start]
    ensures AllWaiting(b, outs[ip := out], incoming', b.NextPc(ip))
  {
    hide Waiting, Loop.Visited, Loop.KernelJump, Loop.Falls;
    var outs' := outs[ip := out];
    VisitedNext(b, ip);
    forall t | b.NextPc(ip) <= t <= b.latch
      ensures WaitingAt(b, outs', incoming', t, b.NextPc(ip))
    {
      assert WaitingAt(b, outs, incoming, t, ip);
      assert incoming'[t - b.start] == if b.KernelJump(ip) == Some(t) then incoming[t - b.start] + [out] else incoming[t - b.start];
      WaitingStep(b, outs, incoming[t - b.start], ip, out, t);
    }
  }

  /** All that the pass keeps up to ip. */
  ghost predicate PassAt(b: Loop, outs: map<int, Types>, at: seq<Types>, results: map<int, Kind>,
                         incoming: seq<seq<Types>>, cur: Option<Types>, ip: int, types: Types)
  {
    && JumpsStay(b)
    && b.start <= ip <= b.latch && b.Visited(ip) && |at| == ip - b.start
    && Passed(b, outs, ip) && Recorded(b, outs, at, results, types)
    && AllWaiting(b, outs, incoming, ip)
    && (if ip == b.start then cur == Some(types) else RunsOn(b, outs, cur, ip))
  }

  lemma PassStart(b: Loop, incoming: seq<seq<Types>>, types: Types)
    requires JumpsStay(b)
    requires |incoming| == b.latch - b.start + 1 && forall k :: 0 <= k < |incoming| ==> incoming[k] == []
    ensures PassAt(b, map[], [], map[], incoming, Some(types), b.start, types)
  {
  }

  lemma PassStep(b: Loop, outs: map<int, Types>, at: seq<Types>, results: map<int, Kind>,
                 incoming: seq<seq<Types>>, cur: Option<Types>, ip: int, types: Types,
                 here: Types, out: Types, results': map<int, Kind>, incoming': seq<seq<Types>>)
    requires PassAt(b, outs, at, results, incoming, cur, ip, types) && ip < b.latch
    requires if ip == b.start then here == types else MergedFrom(b, outs, ip, here)
    requires RecordedAt(b, out, here, results', ip)
    requires results' == match Writes(b.p.code[ip]) case None => results case Some(_) => results[ip := Result(b.p, b.p.code[ip], here).0]
    requires |incoming'| == |incoming|
    requires forall t :: b.start <= t <= b.latch ==>
      incoming'[t - b.start] == if b.KernelJump(ip) == Some(t) then incoming[t - b.start] + [out] else incoming[t - b.start]
    ensures PassAt(b, outs[ip := out], at + (if b.p.code[ip].Compare? then [here, out] else [here]), results', incoming',
                   if b.p.code[ip].Jump? then None else Some(out), b.NextPc(ip), types)
  {
    hide Result, MergedFrom, Recorded, AllWaiting, RunsOn, RecordedAt, Loop.Visited, Loop.KernelJump;
    RecordStep(b, outs, at, results, types, ip, here, out, results');
    RecordedLonger(b, outs[ip := out], at + [here], results', types, out);
    assert at + [here, out] == at + [here] + [out];
    PassedStep(b, outs, ip, out);
    RunsOnStep(b, outs, ip, out);
    VisitedNext(b, ip);
    AllWaitingStep(b, outs, incoming, ip, out, incoming');
  }

  lemma RecordedLonger(b: Loop, outs: map<int, Types>, at: seq<Types>, results: map<int, Kind>, types: Types, more: Types)
    requires Recorded(b, outs, at, results, types)
    ensures Recorded(b, outs, at + [more], results, types)
  {
  }

  /** The pass at its end is the flow. */
  lemma FlowEnd(b: Loop, outs: map<int, Types>, at: seq<Types>, results: map<int, Kind>, types: Types, last: Types)
    requires JumpsStay(b) && Passed(b, outs, b.latch) && Recorded(b, outs, at, results, types) && |at| == b.latch - b.start
    requires b.Visited(b.start)
    requires if b.latch == b.start then last == types else MergedFrom(b, outs, b.latch, last)
    ensures Flow(at + [last], results).From(b, types) && !Flow(at + [last], results).Clashes(b)
  {
    var flow := Flow(at + [last], results);
    hide MergedFrom, Result, Loop.Visited, Flow.Merged;
    forall j | j in outs
      ensures flow.Out(b, j) == outs[j]
    {
      assert RecordedAt(b, outs[j], at[j - b.start], results, j);
    }
    forall ip | b.start < ip <= b.latch && b.Visited(ip)
      ensures flow.Merged(b, ip) && forall r, i, j :: !flow.Clash(b, ip, r, i, j)
    {
      assert MergedFrom(b, outs, ip, flow.At(b, ip)) by {
        if ip < b.latch {
          assert ip in outs && flow.At(b, ip) == at[ip - b.start];
        }
      }
      MergedEnd(b, outs, flow, ip);
    }
    forall ip | b.start <= ip < b.latch && b.Visited(ip) && Writes(b.p.code[ip]).Some?
      ensures ip in results && Result(b.p, b.p.code[ip], flow.At(b, ip)) == (results[ip], true)
    {
      assert ip in outs && RecordedAt(b, outs[ip], at[ip - b.start], results, ip);
    }
  }

  lemma MergedEnd(b: Loop, outs: map<int, Types>, flow: Flow, ip: int)
    requires Passed(b, outs, b.latch) && flow.Fits(b) && b.start < ip <= b.latch
    requires forall j :: j in outs ==> flow.Out(b, j) == outs[j]
    requires MergedFrom(b, outs, ip, flow.At(b, ip))
    ensures flow.Merged(b, ip) && forall r, i, j :: !flow.Clash(b, ip, r, i, j)
  {
    hide Flow.Out, Loop.Visited, ConflictAt;
    assert forall j :: b.Edge(j, ip) <==> j in outs && Comes(b, j, ip);
    NoClashEnd(b, outs, flow, ip);
    forall r ensures ComesEverywhere(b, outs, ip, r) <==> flow.Everywhere(b, ip, r) {
      if ComesEverywhere(b, outs, ip, r) {
        var j :| j in outs && Comes(b, j, ip);
        assert b.Edge(j, ip);
      }
      if flow.Everywhere(b, ip, r) {
        var j :| b.Edge(j, ip);
        assert j in outs && Comes(b, j, ip);
      }
    }
    forall r | r in flow.At(b, ip)
      ensures flow.SomeGives(b, ip, r)
    {
      assert ComesWith(b, outs, ip, r, flow.At(b, ip)[r]);
      var j :| j in outs && Comes(b, j, ip) && r in outs[j] && outs[j][r] == flow.At(b, ip)[r];
      assert b.Edge(j, ip);
    }
  }

  lemma NoClashEnd(b: Loop, outs: map<int, Types>, flow: Flow, ip: int)
    requires flow.Fits(b) && b.start < ip <= b.latch && forall j :: j in outs ==> b.start <= j < b.latch
    requires forall j :: b.Edge(j, ip) <==> j in outs && Comes(b, j, ip)
    requires forall j :: j in outs ==> flow.Out(b, j) == outs[j]
    requires !ConflictAt(b, outs, ip)
    ensures forall r, i, j :: !flow.Clash(b, ip, r, i, j)
  {
    hide Flow.Out, Loop.Visited, Loop.Edge, Comes, Differ, Flow.Clash, DifferAt;
    forall r, i, j
      ensures !flow.Clash(b, ip, r, i, j)
    {
      if flow.Clash(b, ip, r, i, j) {
        ClashDiffers(b, outs, flow, ip, r, i, j);
      }
    }
  }

  lemma ClashDiffers(b: Loop, outs: map<int, Types>, flow: Flow, ip: int, r: nat, i: int, j: int)
    requires flow.Fits(b) && b.start < ip <= b.latch && forall j :: j in outs ==> b.start <= j < b.latch
    requires forall j :: b.Edge(j, ip) <==> j in outs && Comes(b, j, ip)
    requires forall j :: j in outs ==> flow.Out(b, j) == outs[j]
    requires flow.Clash(b, ip, r, i, j)
    ensures DifferAt(b, outs, ip, r, i, j)
  {
    hide Flow.Out, Loop.Visited, Loop.Edge, Comes, Differ;
    forall h | h in outs && Comes(b, h, ip) && h <= j
      ensures r in outs[h]
    {
      assert b.Edge(h, ip);
    }
  }

  lemma VisitedNext(b: Loop, ip: int)
    requires JumpsStay(b) && b.start <= ip < b.latch && b.Visited(ip)
    ensures ip < b.NextPc(ip) <= b.latch && b.Visited(b.NextPc(ip))
    ensures b.KernelJump(ip).Some? ==> b.NextPc(ip) <= b.KernelJump(ip).value <= b.latch
  {
  }

  /** The pass ends at the FORLOOP. */
  lemma EndVisited(b: Loop)
    requires JumpsStay(b)
    ensures b.Visited(b.latch)
  {
    hide Loop.Visited;
    b.StartVisited();
    VisitedOn(b, b.start);
  }

  lemma {:induction false} VisitedOn(b: Loop, ip: int)
    requires JumpsStay(b) && b.start <= ip <= b.latch && b.Visited(ip)
    ensures b.Visited(b.latch)
    decreases b.latch - ip
  {
    hide Loop.Visited, JumpsStay;
    if ip < b.latch {
      VisitedNext(b, ip);
      VisitedOn(b, b.NextPc(ip));
    }
  }

  // ---------- There is one flow, or none ----------

  /** s is t with some types still undecided. */
  ghost predicate Refines(s: Types, t: Types) {
    s.Keys == t.Keys && forall r :: r in s ==> Decides(s[r], t[r])
  }

  lemma SameRefines(t: Types)
    ensures Refines(t, t)
  {
  }

  lemma RefinesBoth(s: Types, t: Types)
    requires Refines(s, t) && Refines(t, s)
    ensures s == t
  {
  }

  /** What is decided on some operand types is so on more decided ones. */
  lemma ResultRefines(p: Proto, i: Instr, s: Types, t: Types)
    requires Refines(s, t)
    ensures Result(p, i, t).1 ==> Result(p, i, s).1 && Decides(Result(p, i, s).0, Result(p, i, t).0)
  {
  }

  /** What flows together is determined: a type is decided where some way decides
      it, and so it is where the ways decide more. */
  lemma MergeRefines(b: Loop, outs: map<int, Types>, g: Flow, ip: int, here: Types)
    requires g.Fits(b) && b.start < ip <= b.latch && g.Merged(b, ip)
    requires forall j :: j in outs ==> b.start <= j < b.latch
    requires MergedFrom(b, outs, ip, here)
    requires forall j :: b.Edge(j, ip) <==> j in outs && Comes(b, j, ip)
    requires forall j :: j in outs && Comes(b, j, ip) ==> Refines(outs[j], g.Out(b, j))
    ensures Refines(here, g.At(b, ip))
  {
    hide Loop.Edge, Comes, Flow.Out, Flow.At, Flow.Everywhere, ComesEverywhere, ComesWith;
    forall r
      ensures r in g.At(b, ip) <==> r in here
    {
      SameKeysMerged(b, outs, g, ip, r);
    }
    forall r | r in here
      ensures Decides(here[r], g.At(b, ip)[r])
    {
      WayDecides(b, outs, g, ip, here, r);
    }
  }

  lemma WayDecides(b: Loop, outs: map<int, Types>, g: Flow, ip: int, here: Types, r: nat)
    requires g.Fits(b) && b.start < ip <= b.latch && g.Merged(b, ip) && r in g.At(b, ip)
    requires forall j :: j in outs ==> b.start <= j < b.latch
    requires MergedFrom(b, outs, ip, here) && r in here
    requires forall j :: b.Edge(j, ip) <==> j in outs && Comes(b, j, ip)
    requires forall j :: j in outs && Comes(b, j, ip) ==> Refines(outs[j], g.Out(b, j))
    ensures Decides(here[r], g.At(b, ip)[r])
  {
    hide Loop.Edge, Comes, Flow.Out, Flow.At, ComesEverywhere, Flow.Everywhere, Flow.SomeGives;
    assert ComesWith(b, outs, ip, r, here[r]);
    var i :| i in outs && Comes(b, i, ip) && r in outs[i] && outs[i][r] == here[r];
    assert b.Edge(i, ip);
    assert r in g.Out(b, i) && Decides(g.Out(b, i)[r], g.At(b, ip)[r]);
  }

  lemma SameKeysMerged(b: Loop, outs: map<int, Types>, g: Flow, ip: int, r: nat)
    requires g.Fits(b) && b.start < ip <= b.latch && forall j :: j in outs ==> b.start <= j < b.latch
    requires forall j :: b.Edge(j, ip) <==> j in outs && Comes(b, j, ip)
    requires forall j :: j in outs && Comes(b, j, ip) ==> Refines(outs[j], g.Out(b, j))
    ensures g.Everywhere(b, ip, r) <==> ComesEverywhere(b, outs, ip, r)
  {
    hide Loop.Edge, Comes, Flow.Out;
    if g.Everywhere(b, ip, r) {
      var j :| b.Edge(j, ip);
      assert j in outs && Comes(b, j, ip);
      forall i | i in outs && Comes(b, i, ip)
        ensures r in outs[i]
      {
        assert b.Edge(i, ip);
      }
    }
    if ComesEverywhere(b, outs, ip, r) {
      var j :| j in outs && Comes(b, j, ip);
      assert b.Edge(j, ip);
    }
  }

  /** Up to ip the edges are from pcs of the pass. */
  lemma EdgesPassed(b: Loop, outs: map<int, Types>, at: int, ip: int)
    requires JumpsStay(b) && Passed(b, outs, at) && b.start <= ip <= at && ip <= b.latch
    ensures forall j :: b.Edge(j, ip) <==> j in outs && Comes(b, j, ip)
  {
  }

  /** A flow from types that decide more agrees with what the pass has decided. */
  lemma {:induction false} PassRefines(b: Loop, outs: map<int, Types>, at: seq<Types>, results: map<int, Kind>, types: Types,
                                       ip: int, t: Types, g: Flow, j: int)
    requires JumpsStay(b) && Passed(b, outs, ip) && Recorded(b, outs, at, results, types)
    requires g.From(b, t) && Refines(types, t) && j in outs
    ensures g.Fits(b) && b.start <= j < b.latch
    ensures Refines(at[j - b.start], g.At(b, j)) && Refines(outs[j], g.Out(b, j))
    decreases j
  {
    hide MergedFrom, RecordedAt, Loop.Visited, Loop.Edge, Comes, Flow.Merged, Result, Refines;
    if j > b.start {
      forall i | i in outs && Comes(b, i, j)
        ensures Refines(outs[i], g.Out(b, i))
      {
        ComesBefore(b, i, j);
        PassRefines(b, outs, at, results, types, ip, t, g, i);
      }
      EdgesPassed(b, outs, ip, j);
      MergeRefines(b, outs, g, j, at[j - b.start]);
    }
    assert RecordedAt(b, outs[j], at[j - b.start], results, j);
    OutRefines(b, outs[j], at[j - b.start], results, g, t, j);
  }

  lemma ComesBefore(b: Loop, i: int, j: int)
    requires b.Valid() && b.start <= i < b.latch && b.start <= j < b.latch && Comes(b, i, j)
    ensures i < j
  {
  }

  lemma OutRefines(b: Loop, out: Types, here: Types, results: map<int, Kind>, g: Flow, t: Types, j: int)
    requires g.From(b, t) && b.start <= j < b.latch && b.Visited(j) && Refines(here, g.At(b, j))
    requires RecordedAt(b, out, here, results, j)
    ensures Refines(out, g.Out(b, j))
  {
    hide Flow.Merged, Loop.Visited, Result;
    ResultRefines(b.p, b.p.code[j], here, g.At(b, j));
  }

  /** Where two ways differ, every flow from types that decide more clashes. */
  lemma NoFlowThrough(b: Loop, outs: map<int, Types>, at: seq<Types>, results: map<int, Kind>, types: Types, ip: int,
                      t: Types, g: Flow)
    requires JumpsStay(b) && Passed(b, outs, ip) && Recorded(b, outs, at, results, types)
    requires b.start < ip <= b.latch && b.Visited(ip) && ConflictAt(b, outs, ip)
    requires g.From(b, t) && Refines(types, t)
    ensures g.Fits(b) && g.Clashes(b)
  {
    hide MergedFrom, Recorded, Loop.Visited, Loop.Edge, Comes, Flow.Out, Flow.From, Refines, DifferAt;
    var r, i, j :| DifferAt(b, outs, ip, r, i, j);
    forall h | h in outs
      ensures g.Fits(b) && b.start <= h < b.latch && Refines(outs[h], g.Out(b, h))
    {
      PassRefines(b, outs, at, results, types, ip, t, g, h);
    }
    EdgesPassed(b, outs, ip, ip);
    FlowFits(b, g, t);
    DiffersClash(b, outs, g, ip, r, i, j);
  }

  lemma DiffersClash(b: Loop, outs: map<int, Types>, g: Flow, ip: int, r: nat, i: int, j: int)
    requires g.Fits(b) && b.start < ip <= b.latch && b.Visited(ip) && forall h :: h in outs ==> b.start <= h < b.latch
    requires forall h :: b.Edge(h, ip) <==> h in outs && Comes(b, h, ip)
    requires forall h :: h in outs ==> Refines(outs[h], g.Out(b, h))
    requires DifferAt(b, outs, ip, r, i, j)
    ensures g.Clash(b, ip, r, i, j)
  {
    hide Loop.Visited, Loop.Edge, Comes, Flow.Out;
  }

  /** Where an instruction cannot run no such flow goes on. */
  lemma NoFlowPast(b: Loop, outs: map<int, Types>, at: seq<Types>, results: map<int, Kind>, types: Types, ip: int, here: Types,
                   t: Types, g: Flow)
    requires JumpsStay(b) && Passed(b, outs, ip) && Recorded(b, outs, at, results, types)
    requires b.start <= ip < b.latch && b.Visited(ip) && Writes(b.p.code[ip]).Some? && !Result(b.p, b.p.code[ip], here).1
    requires if ip == b.start then here == types else MergedFrom(b, outs, ip, here)
    requires Refines(types, t)
    ensures !g.From(b, t)
  {
    hide MergedFrom, Recorded, Loop.Visited, Loop.Edge, Comes, Flow.Merged, Result, Refines;
    if g.From(b, t) {
      if ip > b.start {
        EdgesPassed(b, outs, ip, ip);
        forall j | j in outs && Comes(b, j, ip)
          ensures Refines(outs[j], g.Out(b, j))
        {
          PassRefines(b, outs, at, results, types, ip, t, g, j);
        }
        MergeRefines(b, outs, g, ip, here);
      }
      ResultRefines(b.p, b.p.code[ip], here, g.At(b, ip));
    }
  }

  /** Deciding more types on entry decides more on the way, and changes nothing
      that was decided. */
  lemma {:induction false} FlowRefines(b: Loop, f: Flow, g: Flow, types: Types, t: Types, ip: int)
    requires f.From(b, types) && g.From(b, t) && Refines(types, t) && b.start <= ip <= b.latch && b.Visited(ip)
    ensures f.Fits(b) && g.Fits(b) && Refines(f.At(b, ip), g.At(b, ip))
    decreases ip
  {
    hide Loop.Visited, Loop.Edge, Flow.Merged, Result, Refines;
    if ip > b.start {
      forall j | b.Edge(j, ip)
        ensures b.start <= j < ip && j < b.latch && Refines(f.Out(b, j), g.Out(b, j))
      {
        EdgeFrom(b, j, ip);
        FlowRefines(b, f, g, types, t, j);
        OutsRefine(b, f, g, types, t, j);
      }
      MergesRefine(b, f, g, ip);
    }
  }

  lemma EdgeFrom(b: Loop, j: int, ip: int)
    requires b.Valid() && b.Edge(j, ip)
    ensures b.start <= j < ip && j < b.latch && b.Visited(j)
  {
  }

  lemma OutsRefine(b: Loop, f: Flow, g: Flow, types: Types, t: Types, j: int)
    requires f.From(b, types) && g.From(b, t) && b.start <= j < b.latch && b.Visited(j) && Refines(f.At(b, j), g.At(b, j))
    ensures Refines(f.Out(b, j), g.Out(b, j))
  {
    hide Loop.Visited, Flow.Merged, Result;
    ResultRefines(b.p, b.p.code[j], f.At(b, j), g.At(b, j));
  }

  lemma MergesRefine(b: Loop, f: Flow, g: Flow, ip: int)
    requires f.Fits(b) && g.Fits(b) && b.start < ip <= b.latch && f.Merged(b, ip) && g.Merged(b, ip)
    requires forall j :: b.Edge(j, ip) ==> b.start <= j < b.latch && Refines(f.Out(b, j), g.Out(b, j))
    ensures Refines(f.At(b, ip), g.At(b, ip))
  {
    hide Loop.Edge, Flow.Out, Flow.At;
    forall r
      ensures r in f.At(b, ip) <==> r in g.At(b, ip)
    {
      assert f.Everywhere(b, ip, r) <==> g.Everywhere(b, ip, r);
    }
    forall r | r in f.At(b, ip)
      ensures Decides(f.At(b, ip)[r], g.At(b, ip)[r])
    {
      assert f.SomeGives(b, ip, r);
      var i :| b.Edge(i, ip) && r in f.Out(b, i) && f.Out(b, i)[r] == f.At(b, ip)[r];
      assert r in g.Out(b, i) && Decides(g.Out(b, i)[r], g.At(b, ip)[r]);
    }
  }

  /** So the types on entry determine the flow. */
  lemma FlowUnique(b: Loop, f: Flow, g: Flow, types: Types, ip: int)
    requires f.From(b, types) && g.From(b, types) && b.start <= ip <= b.latch && b.Visited(ip)
    ensures f.Fits(b) && g.Fits(b) && f.At(b, ip) == g.At(b, ip)
  {
    hide Flow.From, Refines, Loop.Visited;
    SameRefines(types);
    FlowRefines(b, f, g, types, types, ip);
    FlowRefines(b, g, f, types, types, ip);
    RefinesBoth(f.At(b, ip), g.At(b, ip));
  }

  lemma FlowFits(b: Loop, flow: Flow, types: Types)
    requires flow.From(b, types)
    ensures flow.Fits(b)
  {
  }

  /** One pass over the body, in which every way to a pc comes before it, gives
      the flow from the types on entry; where it fails, so does every flow from types
      that decide more. */
  method ComputeFlow(b: Loop, types: Types) returns (flow: Flow, ok: bool)
    requires JumpsStay(b)
    ensures ok ==> flow.From(b, types) && !flow.Clashes(b)
    ensures !ok ==> forall t, g: Flow :: Refines(types, t) && g.From(b, t) ==> g.Clashes(b)
  {
    hide Result, MergedFrom, PassAt, RecordedAt, Loop.Visited, Loop.KernelJump;
    var at: seq<Types> := [];
    var incoming: seq<seq<Types>> := seq(b.latch - b.start + 1, _ => []);
    var results: map<int, Kind> := map[];
    var cur: Option<Types> := Some(types);
    ghost var outs: map<int, Types> := map[];
    var ip := b.start;
    PassStart(b, incoming, types);
    while ip < b.latch
      invariant b.start <= ip <= b.latch && |incoming| == b.latch - b.start + 1
      invariant PassAt(b, outs, at, results, incoming, cur, ip, types)
    {
      var merged: Types;
      merged, ok := MergeAt(b, outs, at, results, incoming, cur, ip, types);
      if !ok {
        AllClash(b, outs, at, results, incoming, cur, ip, types);
        return Flow(at, results), false;
      }
      var i := b.p.code[ip];
      var out, results' := merged, results;
      if Writes(i).Some? {
        var (t, runs) := Result(b.p, i, merged);
        if !runs {
          NoneRuns(b, outs, at, results, incoming, cur, ip, types, merged);
          return Flow(at, results), false;
        }
        results' := results[ip := t];
        out := merged[Writes(i).value := t];
      }
      var incoming' := incoming;
      var target := b.KernelJump(ip);
      if target.Some? {
        PassTarget(b, outs, at, results, incoming, cur, ip, types);
        incoming' := incoming[target.value - b.start := incoming[target.value - b.start] + [out]];
      }
      RecordNow(b, merged, results, ip);
      PassStep(b, outs, at, results, incoming, cur, ip, types, merged, out, results', incoming');
      // A test also records the types for the JMP it takes along.
      at := at + (if i.Compare? then [merged, out] else [merged]);
      results, incoming := results', incoming';
      outs := outs[ip := out];
      cur := if i.Jump? then None else Some(out);
      PassTarget(b, outs, at, results, incoming, cur, b.NextPc(ip), types);
      ip := b.NextPc(ip);
    }
    var last: Types;
    last, ok := MergeAt(b, outs, at, results, incoming, cur, ip, types);
    if ok {
      PassEnd(b, outs, at, results, incoming, cur, types, last);
    } else {
      AllClash(b, outs, at, results, incoming, cur, ip, types);
    }
    flow := Flow(at + [last], results);
  }

  lemma AllClash(b: Loop, outs: map<int, Types>, at: seq<Types>, results: map<int, Kind>,
                 incoming: seq<seq<Types>>, cur: Option<Types>, ip: int, types: Types)
    requires PassAt(b, outs, at, results, incoming, cur, ip, types) && ip > b.start
    requires b.Valid() && forall j :: j in outs ==> b.start <= j < b.latch
    requires ConflictAt(b, outs, ip)
    ensures forall t, g: Flow :: Refines(types, t) && g.From(b, t) ==> g.Clashes(b)
  {
    hide Recorded, AllWaiting, RunsOn, ConflictAt, Flow.From, Flow.Clashes, Loop.Visited, Refines;
    forall t, g: Flow | Refines(types, t) && g.From(b, t)
      ensures g.Fits(b) && g.Clashes(b)
    {
      NoFlowThrough(b, outs, at, results, types, ip, t, g);
    }
  }

  lemma NoneRuns(b: Loop, outs: map<int, Types>, at: seq<Types>, results: map<int, Kind>,
                 incoming: seq<seq<Types>>, cur: Option<Types>, ip: int, types: Types, here: Types)
    requires PassAt(b, outs, at, results, incoming, cur, ip, types) && ip < b.latch
    requires b.Valid() && forall j :: j in outs ==> b.start <= j < b.latch
    requires Writes(b.p.code[ip]).Some? && !Result(b.p, b.p.code[ip], here).1
    requires if ip == b.start then here == types else MergedFrom(b, outs, ip, here)
    ensures forall t, g: Flow :: Refines(types, t) ==> !g.From(b, t)
  {
    hide Recorded, AllWaiting, RunsOn, Flow.From, Loop.Visited, Result, MergedFrom, Refines;
    forall t, g: Flow | Refines(types, t)
      ensures !g.From(b, t)
    {
      NoFlowPast(b, outs, at, results, types, ip, here, t, g);
    }
  }

  lemma RecordNow(b: Loop, here: Types, results: map<int, Kind>, ip: int)
    requires b.Valid() && b.start <= ip < b.latch
    ensures match Writes(b.p.code[ip])
      case None => RecordedAt(b, here, here, results, ip)
      case Some(a) =>
        var (t, runs) := Result(b.p, b.p.code[ip], here);
        runs ==> RecordedAt(b, here[a := t], here, results[ip := t], ip)
  {
  }

  lemma PassTarget(b: Loop, outs: map<int, Types>, at: seq<Types>, results: map<int, Kind>,
                   incoming: seq<seq<Types>>, cur: Option<Types>, ip: int, types: Types)
    requires PassAt(b, outs, at, results, incoming, cur, ip, types)
    ensures b.start <= ip <= b.latch && |incoming| == b.latch - b.start + 1
    ensures ip < b.latch && b.KernelJump(ip).Some? ==> ip < b.KernelJump(ip).value <= b.latch
  {
  }

  lemma PassEnd(b: Loop, outs: map<int, Types>, at: seq<Types>, results: map<int, Kind>,
                incoming: seq<seq<Types>>, cur: Option<Types>, types: Types, last: Types)
    requires PassAt(b, outs, at, results, incoming, cur, b.latch, types)
    requires if b.latch == b.start then last == types else MergedFrom(b, outs, b.latch, last)
    ensures Flow(at + [last], results).From(b, types) && !Flow(at + [last], results).Clashes(b)
  {
    hide Result, MergedFrom, RecordedAt, Recorded, AllWaiting, RunsOn, Loop.Visited, Loop.KernelJump, Flow.From;
    b.StartVisited();
    FlowEnd(b, outs, at, results, types, last);
  }

  /** Merging the states that meet at ip: on entry, the types there. */
  method MergeAt(b: Loop, ghost outs: map<int, Types>, ghost at: seq<Types>, ghost results: map<int, Kind>,
                 incoming: seq<seq<Types>>, cur: Option<Types>, ip: int, ghost types: Types)
    returns (merged: Types, ok: bool)
    requires PassAt(b, outs, at, results, incoming, cur, ip, types)
    ensures b.Valid() && forall j :: j in outs ==> b.start <= j < b.latch
    ensures ok ==> if ip == b.start then merged == types else MergedFrom(b, outs, ip, merged)
    ensures !ok ==> ip > b.start && ConflictAt(b, outs, ip)
  {
    hide Recorded, MergeOf, Sourced, MergedFrom, Waiting, RunsOn, Loop.Visited, Conflict, ConflictAt, InOrder;
    assert WaitingAt(b, outs, incoming, ip, ip);
    var waiting := incoming[ip - b.start];
    var states := waiting + (if cur.Some? then [cur.value] else []);
    merged, ok := MergeTypes(states);
    PassedInside(b, outs, ip);
    if ip == b.start {
      EntryState(b, outs, waiting, types, merged, ok);
    } else {
      var ways := WaysTo(b, outs, waiting, cur, ip);
      if ok {
        StatesAreEdges(b, outs, states, ways, ip, merged);
      } else {
        ConflictsMeet(b, outs, states, ways, ip);
      }
    }
  }

  lemma PassedInside(b: Loop, outs: map<int, Types>, ip: int)
    requires Passed(b, outs, ip)
    ensures forall j :: j in outs ==> b.start <= j < b.latch
  {
  }

  lemma EntryState(b: Loop, outs: map<int, Types>, waiting: seq<Types>, types: Types, merged: Types, ok: bool)
    requires b.Valid() && Waiting(b, outs, waiting, b.start, b.start)
    requires ok <==> !Conflict(waiting + [types])
    requires ok ==> MergeOf(waiting + [types], merged) && Sourced(waiting + [types], merged)
    ensures ok && merged == types
  {
    assert waiting + [types] == [types];
    assert !Conflict([types]);
    forall r
      ensures r in merged <==> r in types
    {
      assert [types][0] == types;
    }
  }
}
