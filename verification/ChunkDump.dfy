/** Writing binary chunks. */
module ChunkDump {
  import opened Wrappers
  import opened Chunk

  /** With what remains to be written the output is the target. */
  ghost predicate Owes(out: Bytes, rest: Printed, target: Printed) {
    out + rest.bytes == target.bytes && rest.table == target.table
  }

  lemma Paid(out: Bytes, first: Bytes, rest: Printed, target: Printed)
    requires Owes(out, Then(first, rest), target)
    ensures Owes(out + first, rest, target)
  {
  }

  lemma Settled(out: Bytes, table: seq<Bytes>, target: Printed)
    requires Owes(out, Printed([], table), target)
    ensures out == target.bytes && table == target.table
  {
  }

  lemma Join(a: Bytes, b: Bytes, c: Bytes, d: Bytes, e: Bytes, f: Bytes)
    ensures a + b + c + d + e + f == a + (b + c + d + e + f)
    ensures f == [] ==> a + b + c + d + e == a + (b + c + d + e)
  {
  }

  class DumpState {
    const pl: Platform
    const strip: bool
    var out: Bytes
    var strings: map<Bytes, nat>
    ghost var table: seq<Bytes>

    constructor (pl: Platform, strip: bool)
      ensures Valid() && this.pl == pl && this.strip == strip && out == [] && table == []
    {
      this.pl, this.strip := pl, strip;
      out, strings, table := [], map[], [];
    }

    /** The map is of the strings written, each to its place in the table. */
    ghost predicate Valid()
      reads this
    {
      && |strings| == |table|
      && (forall i :: 0 <= i < |table| ==> table[i] in strings && strings[table[i]] == i)
      && (forall s :: s in strings ==> strings[s] < |table| && table[strings[s]] == s)
    }

    /** What has been written since is as printed, and so are its strings. */
    twostate predicate Wrote(printed: Printed)
      reads this
    {
      Valid() && out == old(out) + printed.bytes && table == printed.table
    }

    method Write(b: Bytes)
      requires Valid()
      modifies this`out
      ensures Valid() && out == old(out) + b
    {
      out := out + b;
    }

    method WriteInt(i: int)
      requires Valid()
      modifies this`out
      ensures Valid() && out == old(out) + IntBytes(pl, i)
    {
      Write(Encode(pl, i, 4));
    }

    method WriteBool(b: bool)
      requires Valid()
      modifies this`out
      ensures Valid() && out == old(out) + [BoolByte(b)]
    {
      if b {
        Write([1]);
      } else {
        Write([0]);
      }
    }

    /** A string, or the place where it was written before. */
    method WriteString(s: Bytes)
      requires Valid()
      modifies this
      ensures Wrote(StringBytes(pl, old(table), s))
    {
      hide IndexOf, Size;
      Places(s);
      if s in strings {
        Write(Size(pl, ReuseBit(pl) + strings[s]));
        return;
      }
      Remember(s);
      Write(Size(pl, |s| + 1));
      Write(s);
      Write([0]);
    }

    /** A string not written before gets the next place. */
    method Remember(s: Bytes)
      requires Valid() && s !in strings
      modifies this`strings, this`table
      ensures Valid() && table == old(table) + [s]
    {
      strings := strings[s := |strings|];
      table := table + [s];
    }

    lemma Places(s: Bytes)
      requires Valid()
      ensures IndexOf(table, s) == if s in strings then Some(strings[s]) else None
    {
    }

    method WriteConstants(ks: seq<Constant>)
      requires Valid()
      modifies this
      ensures Wrote(CountedConstants(pl, old(table), ks))
    {
      hide ConstantBytes, IntBytes;
      ghost var target := Then(out + IntBytes(pl, |ks|), ConstantsBytes(pl, table, ks));
      WriteInt(|ks|);
      var i := 0;
      while i < |ks|
        invariant 0 <= i <= |ks| && Valid() && Owes(out, ConstantsBytes(pl, table, ks[i..]), target)
      {
        assert ks[i..][0] == ks[i] && ks[i..][1..] == ks[i + 1..];
        ghost var first := ConstantBytes(pl, table, ks[i]);
        Paid(out, first.bytes, ConstantsBytes(pl, first.table, ks[i + 1..]), target);
        WriteConstant(ks[i]);
        i := i + 1;
      }
      Settled(out, table, target);
    }

    method WriteConstant(k: Constant)
      requires Valid()
      modifies this
      ensures Wrote(ConstantBytes(pl, old(table), k))
    {
      hide StringBytes, Encode;
      match k {
        case Nil => Write([TAG_NIL]);
        case Boolean(b) => Write([TAG_BOOLEAN]); WriteBool(b);
        case Float(bits) => Write([TAG_NUMBER] + Encode(pl, bits, 8));
        case Integer(n) => Write([TAG_INTEGER] + Encode(pl, n, 8));
        case String(s) => Write([TAG_STRING]); WriteString(s);
      }
    }

    method WriteInts(ints: seq<int>, n: nat)
      requires Valid()
      modifies this`out
      ensures Valid() && out == old(out) + CountedInts(pl, ints, n)
    {
      hide Encode, IntBytes;
      WriteInt(|ints|);
      ghost var target := old(out) + CountedInts(pl, ints, n);
      var i := 0;
      while i < |ints|
        invariant 0 <= i <= |ints| && Valid() && out + IntsBytes(pl, ints[i..], n) == target
      {
        assert ints[i..][0] == ints[i] && ints[i..][1..] == ints[i + 1..];
        assert out + (Encode(pl, ints[i], n) + IntsBytes(pl, ints[i + 1..], n)) ==
               (out + Encode(pl, ints[i], n)) + IntsBytes(pl, ints[i + 1..], n);
        Write(Encode(pl, ints[i], n));
        i := i + 1;
      }
      assert out + [] == out;
    }

    method WriteUpValues(us: seq<UpValueDesc>)
      requires Valid()
      modifies this`out
      ensures Valid() && out == old(out) + CountedUpValues(pl, us)
    {
      hide IntBytes;
      WriteInt(|us|);
      ghost var target := old(out) + (IntBytes(pl, |us|) + UpValuesBytes(us));
      var i := 0;
      while i < |us|
        invariant 0 <= i <= |us| && Valid() && out + UpValuesBytes(us[i..]) == target
      {
        var u := us[i];
        assert us[i..][0] == u && us[i..][1..] == us[i + 1..];
        ghost var pair := [BoolByte(u.isLocal), u.index % 256];
        assert out + (pair + UpValuesBytes(us[i + 1..])) == (out + pair) + UpValuesBytes(us[i + 1..]);
        WriteBool(u.isLocal);
        Write([u.index % 256]);
        i := i + 1;
      }
      assert out + [] == out;
    }

    method WriteLocalVariables(ls: seq<LocalVariable>)
      requires Valid()
      modifies this
      ensures Wrote(CountedLocals(pl, old(table), ls))
    {
      hide LocalBytes, IntBytes;
      ghost var target := Then(out + IntBytes(pl, |ls|), LocalsBytes(pl, table, ls));
      WriteInt(|ls|);
      var i := 0;
      while i < |ls|
        invariant 0 <= i <= |ls| && Valid() && Owes(out, LocalsBytes(pl, table, ls[i..]), target)
      {
        assert ls[i..][0] == ls[i] && ls[i..][1..] == ls[i + 1..];
        ghost var first := LocalBytes(pl, table, ls[i]);
        Paid(out, first.bytes, LocalsBytes(pl, first.table, ls[i + 1..]), target);
        WriteLocalVariable(ls[i]);
        i := i + 1;
      }
      Settled(out, table, target);
    }

    method WriteLocalVariable(lv: LocalVariable)
      requires Valid()
      modifies this
      ensures Wrote(LocalBytes(pl, old(table), lv))
    {
      hide StringBytes, IntBytes;
      WriteString(lv.name);
      WriteInt(lv.startPC);
      WriteInt(lv.endPC);
    }

    method WriteNames(us: seq<UpValueDesc>)
      requires Valid()
      modifies this
      ensures Wrote(CountedNames(pl, old(table), us))
    {
      hide StringBytes, IntBytes;
      ghost var target := Then(out + IntBytes(pl, |us|), NamesBytes(pl, table, us));
      WriteInt(|us|);
      var i := 0;
      while i < |us|
        invariant 0 <= i <= |us| && Valid() && Owes(out, NamesBytes(pl, table, us[i..]), target)
      {
        assert us[i..][0] == us[i] && us[i..][1..] == us[i + 1..];
        ghost var first := StringBytes(pl, table, us[i].name);
        Paid(out, first.bytes, NamesBytes(pl, first.table, us[i + 1..]), target);
        WriteString(us[i].name);
        i := i + 1;
      }
      Settled(out, table, target);
    }

    method WriteSource(p: Proto, parent: Option<Bytes>)
      requires Valid()
      modifies this
      ensures Wrote(SourceBytes(pl, old(table), p, parent))
    {
      hide StringBytes;
      if p.source.None? || p.source == parent { // Load restores what is absent here
        Write(AbsentBytes(pl));
      } else {
        WriteString(p.source.value);
      }
    }

    method WriteDebug(p: Proto, parent: Option<Bytes>)
      requires Valid()
      modifies this
      ensures Wrote(DebugBytes(pl, old(table), p, parent, strip))
    {
      hide SourceBytes, IntBytes, AbsentBytes, CountedInts, CountedLocals, CountedNames;
      ghost var base, table0 := out, table;
      if strip { // DebugBytes of a stripped function
        Write(AbsentBytes(pl));
        WriteInt(0);
        WriteInt(0);
        WriteInt(0);
        Join(base, AbsentBytes(pl), IntBytes(pl, 0), IntBytes(pl, 0), IntBytes(pl, 0), []);
        return;
      }
      WriteSource(p, parent);
      ghost var a, t := SourceBytes(pl, table0, p, parent), table;
      WriteInts(p.lineInfo, 4);
      WriteLocalVariables(p.locals);
      ghost var c := CountedLocals(pl, t, p.locals);
      WriteNames(p.upValues);
      Join(base, a.bytes, CountedInts(pl, p.lineInfo, 4), c.bytes, CountedNames(pl, c.table, p.upValues).bytes, []);
    }

    method WriteHead(p: Proto)
      requires Valid()
      modifies this`out
      ensures Valid() && out == old(out) + HeadBytes(pl, p)
    {
      hide IntBytes, CountedInts;
      WriteInt(p.lineDefined);
      WriteInt(p.lastLineDefined);
      Write([p.parameterCount % 256, VarArgByte(p), p.maxStackSize % 256]);
      WriteInts(p.code, pl.instructionSize);
    }

    /** A function and those nested in it. */
    method DumpFunction(p: Proto, parent: Option<Bytes>)
      requires Valid()
      modifies this
      ensures Wrote(FunctionBytes(pl, old(table), p, parent, strip))
      decreases p, 1
    {
      hide HeadBytes, IntBytes, CountedConstants, FunctionsBytes, CountedUpValues, DebugBytes;
      ghost var base, t := out, table;
      WriteHead(p);
      WriteConstants(p.constants);
      ghost var b := CountedConstants(pl, t, p.constants);
      WritePrototypes(p);
      ghost var c := Then(IntBytes(pl, |p.prototypes|), FunctionsBytes(pl, b.table, p.prototypes, p.source, strip));
      WriteUpValues(p.upValues);
      WriteDebug(p, parent);
      Join(base, HeadBytes(pl, p), b.bytes, c.bytes, CountedUpValues(pl, p.upValues),
           DebugBytes(pl, c.table, p, parent, strip).bytes);
    }

    method WritePrototypes(p: Proto)
      requires Valid()
      modifies this
      ensures Wrote(Then(IntBytes(pl, |p.prototypes|), FunctionsBytes(pl, old(table), p.prototypes, p.source, strip)))
      decreases p, 0
    {
      hide FunctionBytes, IntBytes;
      var ps := p.prototypes;
      ghost var rest := FunctionsBytes(pl, table, ps, p.source, strip);
      ghost var target := Then(out, Then(IntBytes(pl, |ps|), rest));
      Paid(out, IntBytes(pl, |ps|), rest, target);
      WriteInt(|ps|);
      assert ps[0..] == ps;
      var i := 0;
      while i < |ps|
        invariant 0 <= i <= |ps| && Valid() && Owes(out, FunctionsBytes(pl, table, ps[i..], p.source, strip), target)
      {
        assert ps[i..][0] == ps[i] && ps[i..][1..] == ps[i + 1..];
        ghost var first := FunctionBytes(pl, table, ps[i], p.source, strip);
        Paid(out, first.bytes, FunctionsBytes(pl, first.table, ps[i + 1..], p.source, strip), target);
        DumpFunction(ps[i], p.source);
        i := i + 1;
      }
      Settled(out, table, target);
    }
  }

  /** A chunk is its header and its main function. */
  method Dump(pl: Platform, p: Proto, strip: bool) returns (out: Bytes)
    requires pl.Valid()
    ensures out == ChunkBytes(pl, p, strip)
  {
    hide HeaderBytes, FunctionBytes;
    var d := new DumpState(pl, strip);
    d.Write(HeaderBytes(pl));
    d.DumpFunction(p, None);
    out := d.out;
  }
}
