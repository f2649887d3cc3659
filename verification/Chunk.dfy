/** Binary chunks: what each part of a function is written as, with the strings
    written so far. */
module Chunk {
  import opened Wrappers

  type byte = b: int | 0 <= b < 256
  type Bytes = seq<byte>

  /** What the header records of the platform. */
  datatype Platform = Platform(little: bool, pointerSize: nat, instructionSize: nat)
  {
    predicate Valid() {
      pointerSize in {4, 8} && instructionSize in {4, 8}
    }
  }

  // ---------- Functions ----------

  /** Floats are their 64 bits. */
  datatype Constant = Nil | Boolean(b: bool) | Float(bits: nat) | Integer(i: int) | String(s: Bytes)

  datatype LocalVariable = LocalVariable(name: Bytes, startPC: int, endPC: int)

  datatype UpValueDesc = UpValueDesc(name: Bytes, isLocal: bool, index: int)

  /** A function; only one that is being loaded may lack its source. */
  datatype Proto = Proto(lineDefined: int, lastLineDefined: int, parameterCount: int, isVarArg: bool, varArgKind: int,
                         maxStackSize: int, code: seq<int>, constants: seq<Constant>, prototypes: seq<Proto>,
                         upValues: seq<UpValueDesc>, source: Option<Bytes>, lineInfo: seq<int>, locals: seq<LocalVariable>)

  // ---------- Integers ----------

  function Pow256(n: nat): nat {
    if n == 0 then 1 else 256 * Pow256(n - 1)
  }

  /** The low n bytes of v, the lowest first. */
  function Digits(v: int, n: nat): (b: Bytes)
    ensures |b| == n
    decreases n
  {
    if n == 0 then [] else [v % 256] + Digits(v / 256, n - 1)
  }

  function Value(b: Bytes): nat {
    if b == [] then 0 else b[0] + 256 * Value(b[1..])
  }

  function Reverse(b: Bytes): (r: Bytes)
    ensures |r| == |b|
  {
    if b == [] then [] else Reverse(b[1..]) + [b[0]]
  }

  lemma {:induction false} DigitsValue(v: nat, n: nat)
    requires v < Pow256(n)
    ensures Value(Digits(v, n)) == v
    decreases n
  {
    if n > 0 {
      DigitsValue(v / 256, n - 1);
    }
  }

  lemma {:induction false} ReverseAppend(a: Bytes, b: Bytes)
    ensures Reverse(a + b) == Reverse(b) + Reverse(a)
  {
    if a == [] {
      assert a + b == b && Reverse(b) + [] == Reverse(b);
    } else {
      assert (a + b)[1..] == a[1..] + b;
      ReverseAppend(a[1..], b);
    }
  }

  lemma {:induction false} ReverseTwice(b: Bytes)
    ensures Reverse(Reverse(b)) == b
  {
    if b != [] {
      ReverseTwice(b[1..]);
      ReverseAppend(Reverse(b[1..]), [b[0]]);
      assert [b[0]][1..] == [];
    }
  }

  /** The low n bytes of v in the platform's order, and the number they are. */
  function Encode(pl: Platform, v: int, n: nat): (b: Bytes)
    ensures |b| == n
  {
    if pl.little then Digits(v, n) else Reverse(Digits(v, n))
  }

  function Decode(pl: Platform, b: Bytes): nat {
    Value(if pl.little then b else Reverse(b))
  }

  lemma EncodeDecode(pl: Platform, v: nat, n: nat)
    requires v < Pow256(n)
    ensures Decode(pl, Encode(pl, v, n)) == v
  {
    DigitsValue(v, n);
    ReverseTwice(Digits(v, n));
  }

  /** A signed number of n bytes. */
  function Signed(pl: Platform, b: Bytes): int {
    var v := Decode(pl, b);
    if 2 * v >= Pow256(|b|) then v - Pow256(|b|) else v
  }

  /** v is a signed number of n bytes. */
  predicate FitsIn(v: int, n: nat) {
    0 - Pow256(n) <= 2 * v < Pow256(n)
  }

  lemma {:induction false} DigitsModulo(v: int, n: nat)
    ensures Digits(v, n) == Digits(v + Pow256(n), n)
    decreases n
  {
    if n > 0 {
      var p := Pow256(n - 1);
      assert v + Pow256(n) == v + 256 * p;
      assert (v + 256 * p) % 256 == v % 256 && (v + 256 * p) / 256 == v / 256 + p;
      DigitsModulo(v / 256, n - 1);
    }
  }

  lemma EncodeSigned(pl: Platform, v: int, n: nat)
    requires FitsIn(v, n)
    ensures Signed(pl, Encode(pl, v, n)) == v
  {
    if v < 0 {
      DigitsModulo(v, n);
      EncodeDecode(pl, v + Pow256(n), n);
    } else {
      EncodeDecode(pl, v, n);
    }
  }

  // ---------- Strings ----------

  /** What has been written, and the strings in it, in order. */
  datatype Printed = Printed(bytes: Bytes, table: seq<Bytes>)

  /** The first place of s in the table. */
  function IndexOf(table: seq<Bytes>, s: Bytes): (i: Option<nat>)
    ensures i.Some? ==> i.value < |table| && table[i.value] == s
    ensures i.None? <==> s !in table
  {
    if table == [] then None
    else if table[0] == s then Some(0)
    else match IndexOf(table[1..], s)
      case None => None
      case Some(j) => Some(j + 1)
  }

  /** The bit of a size that marks a string written before. */
  function ReuseBit(pl: Platform): nat {
    Pow256(pl.pointerSize) / 2
  }

  function Size(pl: Platform, size: int): Bytes {
    Encode(pl, size, pl.pointerSize)
  }

  /** A missing string. */
  function AbsentBytes(pl: Platform): Bytes {
    Size(pl, 0)
  }

  /** A string: its place in the table if it is there, and otherwise itself,
      with the 0 byte after it in its size. */
  function StringBytes(pl: Platform, table: seq<Bytes>, s: Bytes): (r: Printed)
    ensures |table| <= |r.table|
  {
    match IndexOf(table, s)
    case Some(i) => Printed(Size(pl, ReuseBit(pl) + i), table)
    case None => Printed(Size(pl, |s| + 1) + s + [0], table + [s])
  }

  /** A then b, which is written with the strings a leaves. */
  function Then(a: Bytes, b: Printed): Printed {
    b.(bytes := a + b.bytes)
  }

  // ---------- Parts of functions ----------

  const TAG_NIL: byte := 0
  const TAG_BOOLEAN: byte := 1
  const TAG_NUMBER: byte := 3
  const TAG_STRING: byte := 4
  const TAG_INTEGER: byte := 0x13

  function IntBytes(pl: Platform, i: int): Bytes {
    Encode(pl, i, 4)
  }

  function BoolByte(b: bool): byte {
    if b then 1 else 0
  }

  function ConstantBytes(pl: Platform, table: seq<Bytes>, k: Constant): (r: Printed)
    ensures |table| <= |r.table|
  {
    match k
    case Nil => Printed([TAG_NIL], table)
    case Boolean(b) => Printed([TAG_BOOLEAN, BoolByte(b)], table)
    case Float(bits) => Printed([TAG_NUMBER] + Encode(pl, bits, 8), table)
    case Integer(i) => Printed([TAG_INTEGER] + Encode(pl, i, 8), table)
    case String(s) => Then([TAG_STRING], StringBytes(pl, table, s))
  }

  function ConstantsBytes(pl: Platform, table: seq<Bytes>, ks: seq<Constant>): (r: Printed)
    ensures |table| <= |r.table|
    decreases ks
  {
    if ks == [] then Printed([], table)
    else
      var first := ConstantBytes(pl, table, ks[0]);
      Then(first.bytes, ConstantsBytes(pl, first.table, ks[1..]))
  }

  /** Numbers of n bytes each. */
  function IntsBytes(pl: Platform, ints: seq<int>, n: nat): Bytes {
    if ints == [] then [] else Encode(pl, ints[0], n) + IntsBytes(pl, ints[1..], n)
  }

  function UpValuesBytes(us: seq<UpValueDesc>): Bytes {
    if us == [] then [] else [BoolByte(us[0].isLocal), us[0].index % 256] + UpValuesBytes(us[1..])
  }

  function LocalBytes(pl: Platform, table: seq<Bytes>, lv: LocalVariable): (r: Printed)
    ensures |table| <= |r.table|
  {
    var name := StringBytes(pl, table, lv.name);
    name.(bytes := name.bytes + IntBytes(pl, lv.startPC) + IntBytes(pl, lv.endPC))
  }

  function LocalsBytes(pl: Platform, table: seq<Bytes>, ls: seq<LocalVariable>): (r: Printed)
    ensures |table| <= |r.table|
    decreases ls
  {
    if ls == [] then Printed([], table)
    else
      var first := LocalBytes(pl, table, ls[0]);
      Then(first.bytes, LocalsBytes(pl, first.table, ls[1..]))
  }

  function NamesBytes(pl: Platform, table: seq<Bytes>, us: seq<UpValueDesc>): (r: Printed)
    ensures |table| <= |r.table|
    decreases us
  {
    if us == [] then Printed([], table)
    else
      var first := StringBytes(pl, table, us[0].name);
      Then(first.bytes, NamesBytes(pl, first.table, us[1..]))
  }

  /** A function's source, unless it is its parent's. */
  function SourceBytes(pl: Platform, table: seq<Bytes>, p: Proto, parent: Option<Bytes>): (r: Printed)
    ensures |table| <= |r.table|
  {
    if p.source.None? || p.source == parent then Printed(AbsentBytes(pl), table)
    else StringBytes(pl, table, p.source.value)
  }

  /** Debug information: without it, a missing source and three empty lists. */
  function DebugBytes(pl: Platform, table: seq<Bytes>, p: Proto, parent: Option<Bytes>, strip: bool): (r: Printed)
    ensures |table| <= |r.table|
  {
    if strip then
      Printed(AbsentBytes(pl) + IntBytes(pl, 0) + IntBytes(pl, 0) + IntBytes(pl, 0), table)
    else
      var source := SourceBytes(pl, table, p, parent);
      var locals := CountedLocals(pl, source.table, p.locals);
      var names := CountedNames(pl, locals.table, p.upValues);
      Printed(source.bytes + CountedInts(pl, p.lineInfo, 4) + locals.bytes + names.bytes, names.table)
  }

  // Lists, after their lengths.

  function CountedInts(pl: Platform, ints: seq<int>, n: nat): Bytes {
    IntBytes(pl, |ints|) + IntsBytes(pl, ints, n)
  }

  function CountedUpValues(pl: Platform, us: seq<UpValueDesc>): Bytes {
    IntBytes(pl, |us|) + UpValuesBytes(us)
  }

  function CountedConstants(pl: Platform, table: seq<Bytes>, ks: seq<Constant>): (r: Printed)
    ensures |table| <= |r.table|
  {
    Then(IntBytes(pl, |ks|), ConstantsBytes(pl, table, ks))
  }

  function CountedLocals(pl: Platform, table: seq<Bytes>, ls: seq<LocalVariable>): (r: Printed)
    ensures |table| <= |r.table|
  {
    Then(IntBytes(pl, |ls|), LocalsBytes(pl, table, ls))
  }

  function CountedNames(pl: Platform, table: seq<Bytes>, us: seq<UpValueDesc>): (r: Printed)
    ensures |table| <= |r.table|
  {
    Then(IntBytes(pl, |us|), NamesBytes(pl, table, us))
  }

  function VarArgByte(p: Proto): byte {
    (p.varArgKind * 2) % 256 + BoolByte(p.isVarArg)
  }

  /** What comes before a function's constants. */
  function HeadBytes(pl: Platform, p: Proto): Bytes {
    IntBytes(pl, p.lineDefined) + IntBytes(pl, p.lastLineDefined)
    + [p.parameterCount % 256, VarArgByte(p), p.maxStackSize % 256]
    + CountedInts(pl, p.code, pl.instructionSize)
  }

  /** A function: its head, constants, nested functions, upvalues and debug
      information. */
  function FunctionBytes(pl: Platform, table: seq<Bytes>, p: Proto, parent: Option<Bytes>, strip: bool): (r: Printed)
    ensures |table| <= |r.table|
    decreases p
  {
    var ks := CountedConstants(pl, table, p.constants);
    var nested := Then(IntBytes(pl, |p.prototypes|), FunctionsBytes(pl, ks.table, p.prototypes, p.source, strip));
    var debug := DebugBytes(pl, nested.table, p, parent, strip);
    Printed(HeadBytes(pl, p) + ks.bytes + nested.bytes + CountedUpValues(pl, p.upValues) + debug.bytes, debug.table)
  }

  function FunctionsBytes(pl: Platform, table: seq<Bytes>, ps: seq<Proto>, parent: Option<Bytes>, strip: bool): (r: Printed)
    ensures |table| <= |r.table|
    decreases ps
  {
    if ps == [] then Printed([], table)
    else
      var first := FunctionBytes(pl, table, ps[0], parent, strip);
      Then(first.bytes, FunctionsBytes(pl, first.table, ps[1..], parent, strip))
  }

  // ---------- Headers ----------

  const SIGNATURE: Bytes := [0x1b, 76, 117, 97]
  const TAIL: Bytes := [0x19, 0x93, 13, 10, 0x1a, 10]

  function HeaderBytes(pl: Platform): (b: Bytes)
    requires pl.Valid()
    ensures |b| == 18
  {
    SIGNATURE + [0x55, 4, BoolByte(pl.little), 4, pl.pointerSize, pl.instructionSize, 8, 0] + TAIL
  }

  /** A whole chunk. */
  function ChunkBytes(pl: Platform, p: Proto, strip: bool): Bytes
    requires pl.Valid()
  {
    HeaderBytes(pl) + FunctionBytes(pl, [], p, None, strip).bytes
  }

  // ---------- What fits ----------

  const LIST_LIMIT := 0x8000_0000

  predicate FitsString(pl: Platform, s: Bytes) {
    |s| + 1 < ReuseBit(pl) && |s| + 1 <= 0x4000_0000_0000_0000
  }

  predicate FitsConstant(pl: Platform, k: Constant) {
    match k
    case Float(bits) => bits < Pow256(8)
    case Integer(i) => FitsIn(i, 8)
    case String(s) => FitsString(pl, s)
    case _ => true
  }

  predicate FitsLocal(pl: Platform, lv: LocalVariable) {
    FitsString(pl, lv.name) && FitsIn(lv.startPC, 4) && FitsIn(lv.endPC, 4)
  }

  predicate FitsUpValue(pl: Platform, u: UpValueDesc) {
    FitsString(pl, u.name) && 0 <= u.index < 256
  }

  /** Each field of a function and of those nested in it fits its encoding. */
  predicate Fits(pl: Platform, p: Proto)
    decreases p
  {
    && FitsIn(p.lineDefined, 4) && FitsIn(p.lastLineDefined, 4)
    && 0 <= p.parameterCount < 256 && 0 <= p.varArgKind < 128 && 0 <= p.maxStackSize < 256
    && |p.code| < LIST_LIMIT && (forall i :: 0 <= i < |p.code| ==> 0 <= p.code[i] < Pow256(pl.instructionSize))
    && |p.constants| < LIST_LIMIT && (forall i :: 0 <= i < |p.constants| ==> FitsConstant(pl, p.constants[i]))
    && |p.prototypes| < LIST_LIMIT && (forall i :: 0 <= i < |p.prototypes| ==> Fits(pl, p.prototypes[i]))
    && |p.upValues| < LIST_LIMIT && (forall i :: 0 <= i < |p.upValues| ==> FitsUpValue(pl, p.upValues[i]))
    && p.source.Some? && FitsString(pl, p.source.value)
    && |p.lineInfo| < LIST_LIMIT && (forall i :: 0 <= i < |p.lineInfo| ==> FitsIn(p.lineInfo[i], 4))
    && |p.locals| < LIST_LIMIT && (forall i :: 0 <= i < |p.locals| ==> FitsLocal(pl, p.locals[i]))
  }
}
