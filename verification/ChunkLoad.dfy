/** Reading binary chunks, and the round trip. */
module ChunkLoad {
  import opened Wrappers
  import opened Chunk

  datatype LoadError = Truncated | NotPrecompiled | VersionMismatch | Incompatible | Corrupted

  datatype Result<+T> = Ok(value: T) | Err(error: LoadError)

  const BATCH_SIZE := 4096

  function Flatten(chunks: seq<Bytes>): Bytes {
    if chunks == [] then [] else chunks[0] + Flatten(chunks[1..])
  }

  /** Chunks of so many bytes each. */
  ghost predicate Sized(chunks: seq<Bytes>, size: nat) {
    forall i :: 0 <= i < |chunks| ==> |chunks[i]| == size
  }

  lemma {:induction false} FlattenLength(chunks: seq<Bytes>, size: nat)
    requires Sized(chunks, size)
    ensures |Flatten(chunks)| == |chunks| * size
  {
    if chunks != [] {
      FlattenLength(chunks[1..], size);
      assert |chunks| * size == size + (|chunks| - 1) * size;
    }
  }

  lemma {:induction false} FlattenSplit(chunks: seq<Bytes>, k: nat)
    requires k <= |chunks|
    ensures Flatten(chunks) == Flatten(chunks[..k]) + Flatten(chunks[k..])
  {
    if k > 0 {
      FlattenSplit(chunks[1..], k - 1);
      assert chunks[1..][..k - 1] == chunks[..k][1..] && chunks[1..][k - 1..] == chunks[k..];
      assert Flatten(chunks[..k]) == chunks[0] + Flatten(chunks[..k][1..]);
    } else {
      assert chunks[..0] == [] && chunks[0..] == chunks;
      assert [] + Flatten(chunks) == Flatten(chunks);
    }
  }

  class LoadState {
    const pl: Platform
    ghost const cut: Bytes // what the input lacks of a chunk that was cut short
    var input: Bytes
    var absent: bool
    var strings: seq<Bytes>

    constructor (pl: Platform, input: Bytes, ghost cut: Bytes)
      ensures this.pl == pl && this.input == input && this.cut == cut && strings == [] && !absent
    {
      this.pl, this.input, this.cut := pl, input, cut;
      absent, strings := false, [];
    }

    /** The input as if nothing were lacking. */
    ghost function Whole(): Bytes
      reads this
    {
      input + cut
    }

    /** What is lacking is no more than what is to be left. */
    ghost predicate Enough(rest: Bytes) {
      |cut| <= |rest|
    }

    /** Reads n bytes. */
    method Take(n: nat) returns (r: Result<Bytes>)
      modifies this`input
      ensures |input| <= |old(input)|
      ensures r.Ok? <==> n <= |old(input)|
      ensures r.Ok? ==> |r.value| == n && old(input) == r.value + input && old(Whole()) == r.value + Whole()
      ensures r.Err? ==> r.error == Truncated
    {
      if n > |input| {
        input := [];
        return Err(Truncated);
      }
      r := Ok(input[..n]);
      input := input[n..];
    }

    /** Reads a signed 32-bit number: v, where that is next. */
    method ReadInt(ghost v: int, ghost rest: Bytes) returns (r: Result<int>)
      modifies this`input
      ensures |input| <= |old(input)| && (r.Ok? ==> |input| == |old(input)| - 4)
      ensures old(Whole()) == IntBytes(pl, v) + rest && FitsIn(v, 4) ==>
        if Enough(rest) then r == Ok(v) && Whole() == rest else r == Err(Truncated)
    {
      var b := Take(4);
      if b.Err? {
        return Err(b.error);
      }
      if old(Whole()) == IntBytes(pl, v) + rest && FitsIn(v, 4) {
        Split(b.value, Whole(), IntBytes(pl, v), rest);
        EncodeSigned(pl, v, 4);
      }
      r := Ok(Signed(pl, b.value));
    }

    /** Reads a count that lists may have, n where that comes next. */
    method ReadCount(ghost n: nat, ghost rest: Bytes) returns (r: Result<nat>)
      modifies this`input
      ensures |input| <= |old(input)| && (r.Ok? ==> |input| == |old(input)| - 4)
      ensures old(Whole()) == IntBytes(pl, n) + rest && n < LIST_LIMIT ==>
        if Enough(rest) then r == Ok(n) && Whole() == rest else r == Err(Truncated)
    {
      SmallFits(n);
      var i := ReadInt(n, rest);
      match i
      case Err(error) => return Err(error);
      case Ok(v) => return if v < 0 then Err(Corrupted) else Ok(v);
    }

    lemma SmallFits(n: nat)
      ensures n < LIST_LIMIT ==> FitsIn(n, 4)
    {
    }

    lemma Split(a: Bytes, b: Bytes, c: Bytes, d: Bytes)
      requires a + b == c + d && |a| == |c|
      ensures a == c && b == d
    {
      assert a == (a + b)[..|a|] && c == (c + d)[..|a|];
      assert b == (a + b)[|a|..] && d == (c + d)[|a|..];
    }

    /** Reads a byte. */
    method ReadByte() returns (r: Result<byte>)
      modifies this`input
      ensures |input| <= |old(input)| && (r.Ok? <==> old(input) != [])
      ensures r.Ok? ==> r.value == old(input)[0] && input == old(input)[1..] && old(Whole()) == [r.value] + Whole()
      ensures r.Err? ==> r.error == Truncated
    {
      var b := Take(1);
      match b
      case Err(error) => return Err(error);
      case Ok(v) => return Ok(v[0]);
    }

    // ---------- Strings ----------

    /** Reads a string's size, which says whether there is one at all. */
    method ReadSize(ghost size: nat, ghost rest: Bytes) returns (r: Result<nat>)
      requires pl.Valid()
      modifies this`input
      ensures |input| <= |old(input)|
      ensures old(Whole()) == Size(pl, size) + rest && size < Pow256(pl.pointerSize) ==>
        if Enough(rest) then r == Ok(size) && Whole() == rest else r == Err(Truncated)
    {
      var b := Take(pl.pointerSize);
      if b.Err? {
        return Err(b.error);
      }
      if old(Whole()) == Size(pl, size) + rest && size < Pow256(pl.pointerSize) {
        Split(b.value, Whole(), Size(pl, size), rest);
        EncodeDecode(pl, size, pl.pointerSize);
      }
      r := Ok(Decode(pl, b.value));
    }

    /** A string is next, or a missing one, as s says. */
    ghost predicate StringNext(was: Bytes, table: seq<Bytes>, s: Option<Bytes>, rest: Bytes) {
      if s.None? then was == AbsentBytes(pl) + rest
      else was == StringBytes(pl, table, s.value).bytes + rest && FitsString(pl, s.value) && |table| <= ReuseBit(pl)
    }

    /** Reads a string, new or one read before, if there is one. */
    method ReadString(ghost s: Option<Bytes>, ghost rest: Bytes) returns (r: Result<Bytes>)
      requires pl.Valid()
      modifies this`input, this`absent, this`strings
      ensures |input| <= |old(input)|
      ensures StringNext(old(Whole()), old(strings), s, rest) ==>
        if !Enough(rest) then r == Err(Truncated)
        else if s.None? then r == Ok([]) && Whole() == rest && absent && strings == old(strings)
        else r == Ok(s.value) && Whole() == rest && !absent && strings == StringBytes(pl, old(strings), s.value).table
    {
      Sizes(s, rest);
      var size := ReadSize(StringSize(s), AfterSize(s) + rest);
      if size.Err? {
        return Err(size.error);
      }
      absent := size.value == 0;
      if absent {
        return Ok([]);
      }
      if size.value >= ReuseBit(pl) { // its place in the table
        var i := size.value - ReuseBit(pl);
        return if i >= |strings| then Err(Corrupted) else Ok(strings[i]);
      }
      if size.value > 0x4000_0000_0000_0000 {
        return Err(Corrupted);
      }
      var b := Take(size.value);
      if b.Err? {
        return Err(b.error);
      }
      if StringNext(old(Whole()), old(strings), s, rest) {
        Split(b.value, Whole(), s.value + [0], rest);
        assert (s.value + [0])[..|s.value|] == s.value;
      }
      r := Ok(b.value[..size.value - 1]); // the terminator is no part of it
      strings := strings + [r.value];
    }

    /** The size written for s, and what follows it. */
    ghost function StringSize(s: Option<Bytes>): nat
      reads this`strings
    {
      if s.None? then 0
      else match IndexOf(strings, s.value)
        case Some(i) => ReuseBit(pl) + i
        case None => |s.value| + 1
    }

    ghost function AfterSize(s: Option<Bytes>): Bytes
      reads this`strings
    {
      if s.None? || IndexOf(strings, s.value).Some? then [] else s.value + [0]
    }

    lemma Sizes(s: Option<Bytes>, rest: Bytes)
      requires pl.Valid()
      ensures ReuseBit(pl) > 0
      ensures StringNext(Whole(), strings, s, rest) ==>
        && Whole() == Size(pl, StringSize(s)) + (AfterSize(s) + rest) && StringSize(s) < Pow256(pl.pointerSize)
        && (s.Some? ==> StringSize(s) > 0 && (StringSize(s) >= ReuseBit(pl) <==> IndexOf(strings, s.value).Some?))
    {
    }

    lemma Powers()
      ensures Pow256(4) == 0x1_0000_0000 && Pow256(8) == 0x1_0000_0000_0000_0000
    {
    }

    // ---------- Lists ----------

    /** Chunks of so many bytes are next, after their count. */
    ghost predicate ChunksNext(was: Bytes, chunks: seq<Bytes>, size: nat, rest: Bytes) {
      was == IntBytes(pl, |chunks|) + Flatten(chunks) + rest && |chunks| < LIST_LIMIT && Sized(chunks, size)
    }

    /** Reads a list of elements, each of size bytes: chunks, where they come next. */
    method ReadList(size: nat, ghost chunks: seq<Bytes>, ghost rest: Bytes) returns (r: Result<seq<Bytes>>)
      requires size > 0
      modifies this`input
      ensures |input| <= |old(input)| && (r.Ok? ==> |input| < |old(input)| && Sized(r.value, size))
      ensures ChunksNext(old(Whole()), chunks, size, rest) ==>
        if Enough(rest) then r == Ok(chunks) && Whole() == rest else r == Err(Truncated)
    {
      ghost var next := ChunksNext(Whole(), chunks, size, rest);
      if next {
        assert Whole() == IntBytes(pl, |chunks|) + (Flatten(chunks) + rest);
      }
      var n := ReadCount(|chunks|, Flatten(chunks) + rest);
      if n.Err? {
        return Err(n.error);
      }
      var list: seq<Bytes> := [];
      assert next ==> chunks[0..] == chunks;
      while |list| < n.value
        invariant |list| <= n.value && |input| < |old(input)| && Sized(list, size)
        invariant next ==> n.value == |chunks| && list == chunks[..|list|] && Whole() == Flatten(chunks[|list|..]) + rest
        decreases n.value - |list|
      {
        var k := if n.value - |list| < BATCH_SIZE then n.value - |list| else BATCH_SIZE;
        ghost var ahead := if next then chunks[|list|..] else [];
        var batch := ReadBatch(k, size, ahead, rest);
        if batch.Err? {
          return Err(batch.error);
        }
        if next {
          assert ahead[..k] == chunks[|list|..|list| + k] && ahead[k..] == chunks[|list| + k..];
        }
        list := list + batch.value;
      }
      if next {
        assert chunks[|list|..] == [] && chunks[..|list|] == chunks;
      }
      r := Ok(list);
    }

    /** Reads k elements of so many bytes. */
    method ReadBatch(k: nat, size: nat, ghost chunks: seq<Bytes>, ghost rest: Bytes) returns (r: Result<seq<Bytes>>)
      modifies this`input
      ensures |input| <= |old(input)| && (r.Ok? ==> |r.value| == k && Sized(r.value, size))
      ensures old(Whole()) == Flatten(chunks) + rest && k <= |chunks| && Sized(chunks, size) ==>
        if Enough(Flatten(chunks[k..]) + rest) then r == Ok(chunks[..k]) && Whole() == Flatten(chunks[k..]) + rest
        else r == Err(Truncated)
    {
      var b := Take(k * size);
      if old(Whole()) == Flatten(chunks) + rest && k <= |chunks| && Sized(chunks, size) {
        BatchFits(chunks, k, size);
      }
      if b.Err? {
        return Err(b.error);
      }
      if old(Whole()) == Flatten(chunks) + rest && k <= |chunks| && Sized(chunks, size) {
        assert old(Whole()) == Flatten(chunks[..k]) + (Flatten(chunks[k..]) + rest);
        Split(b.value, Whole(), Flatten(chunks[..k]), Flatten(chunks[k..]) + rest);
        PiecesFlatten(chunks[..k], size);
      }
      r := Ok(Pieces(b.value, size, k));
    }

    lemma BatchFits(chunks: seq<Bytes>, k: nat, size: nat)
      requires k <= |chunks| && Sized(chunks, size)
      ensures Flatten(chunks) == Flatten(chunks[..k]) + Flatten(chunks[k..])
      ensures |Flatten(chunks[..k])| == k * size <= |Flatten(chunks)|
    {
      FlattenSplit(chunks, k);
      FlattenLength(chunks[..k], size);
    }

    /** Reads a list of numbers of n bytes each. */
    method ReadInts(n: nat, signed: bool, ghost ints: seq<int>, ghost rest: Bytes) returns (r: Result<seq<int>>)
      requires n > 0
      modifies this`input
      ensures |input| <= |old(input)| && (r.Ok? ==> |input| < |old(input)|)
      ensures old(Whole()) == CountedInts(pl, ints, n) + rest && |ints| < LIST_LIMIT && IntsFit(ints, n, signed) ==>
        if Enough(rest) then r == Ok(ints) && Whole() == rest else r == Err(Truncated)
    {
      IntsFlatten(pl, ints, n);
      var chunks := ReadList(n, Encodings(pl, ints, n), rest);
      match chunks
      case Err(error) => return Err(error);
      case Ok(list) =>
        if IntsFit(ints, n, signed) {
          DecodeEncodings(pl, ints, n, signed);
        }
        return Ok(Decodings(pl, list, signed));
    }

    /** Reads upvalues, as yet without names. */
    method ReadUpValues(ghost us: seq<UpValueDesc>, ghost rest: Bytes) returns (r: Result<seq<UpValueDesc>>)
      modifies this`input
      ensures |input| <= |old(input)|
      ensures old(Whole()) == CountedUpValues(pl, us) + rest && |us| < LIST_LIMIT && IndexesFit(us) ==>
        if Enough(rest) then r == Ok(Unnamed(us)) && Whole() == rest else r == Err(Truncated)
    {
      UpValuesFlatten(us);
      var chunks := ReadList(2, Pairs(us), rest);
      match chunks
      case Err(error) => return Err(error);
      case Ok(list) =>
        assert IndexesFit(us) ==> UpValuesOf(Pairs(us)) == Unnamed(us);
        return Ok(UpValuesOf(list));
    }

    // ---------- Lists with strings ----------

    /** What is printed is next, and all its strings have places. */
    ghost predicate Next(was: Bytes, printed: Printed, rest: Bytes) {
      was == printed.bytes + rest && |printed.table| <= ReuseBit(pl)
    }

    /** What is printed has been read. */
    ghost predicate HasRead(printed: Printed, rest: Bytes)
      reads this
    {
      Whole() == rest && strings == printed.table
    }

    method ReadConstant(ghost k: Constant, ghost rest: Bytes) returns (r: Result<Constant>)
      requires pl.Valid()
      modifies this`input, this`absent, this`strings
      ensures |input| <= |old(input)|
      ensures Next(old(Whole()), ConstantBytes(pl, old(strings), k), rest) && FitsConstant(pl, k) ==>
        if Enough(rest) then r == Ok(k) && HasRead(ConstantBytes(pl, old(strings), k), rest)
        else r == Err(Truncated)
    {
      hide StringBytes, Encode, Signed, FitsIn, FitsString, Decode;
      ghost var bytes := ConstantBytes(pl, strings, k).bytes;
      var t := ReadByte();
      if t.Err? {
        return Err(t.error);
      }
      if old(Whole()) == bytes + rest {
        assert bytes + rest == [bytes[0]] + (bytes[1..] + rest);
        Split([t.value], Whole(), [bytes[0]], bytes[1..] + rest);
      }
      if t.value == TAG_NIL {
        return Ok(Nil);
      } else if t.value == TAG_BOOLEAN {
        var b := ReadByte();
        if k.Boolean? && b.Ok? && old(Whole()) == bytes + rest {
          Split([b.value], Whole(), [BoolByte(k.b)], rest);
        }
        return if b.Err? then Err(b.error) else Ok(Boolean(b.value != 0));
      } else if t.value == TAG_NUMBER {
        var f := ReadFloat(if k.Float? then k.bits else 0, rest);
        return if f.Err? then Err(f.error) else Ok(Float(f.value));
      } else if t.value == TAG_INTEGER {
        var i := ReadInteger(if k.Integer? then k.i else 0, rest);
        return if i.Err? then Err(i.error) else Ok(Integer(i.value));
      } else if t.value == TAG_STRING {
        var s := ReadString(if k.String? then Some(k.s) else None, rest);
        return if s.Err? then Err(s.error) else Ok(String(s.value));
      }
      return Err(Corrupted);
    }

    method ReadConstants(ghost ks: seq<Constant>, ghost rest: Bytes) returns (r: Result<seq<Constant>>)
      requires pl.Valid()
      modifies this`input, this`absent, this`strings
      ensures |input| <= |old(input)|
      ensures
        var printed := CountedConstants(pl, old(strings), ks);
        Next(old(Whole()), printed, rest) && |ks| < LIST_LIMIT && (forall i :: 0 <= i < |ks| ==> FitsConstant(pl, ks[i])) ==>
          if Enough(rest) then r == Ok(ks) && HasRead(printed, rest)
          else r == Err(Truncated)
    {
      hide ConstantBytes, IntBytes, FitsConstant, ReuseBit;
      ghost var printed, was := CountedConstants(pl, strings, ks), input;
      ghost var next := Next(Whole(), printed, rest) && |ks| < LIST_LIMIT && (forall i :: 0 <= i < |ks| ==> FitsConstant(pl, ks[i]));
      ghost var after := ConstantsBytes(pl, strings, ks).bytes + rest;
      Regroup(IntBytes(pl, |ks|), ConstantsBytes(pl, strings, ks).bytes, rest);
      var n := ReadCount(|ks|, after);
      if n.Err? {
        return Err(n.error);
      }
      var list: seq<Constant> := [];
      assert ks[0..] == ks;
      while |list| < n.value
        invariant |list| <= n.value && |input| <= |was|
        invariant next ==> n.value == |ks| && list == ks[..|list|]
        invariant next ==> Owing(ConstantsBytes(pl, strings, ks[|list|..]), printed.table, rest)
        decreases n.value - |list|
      {
        ghost var i := |list|;
        if next {
          assert ks[i..][0] == ks[i] && ks[i..][1..] == ks[i + 1..];
          ghost var first := ConstantBytes(pl, strings, ks[i]);
          after := ConstantsBytes(pl, first.table, ks[i + 1..]).bytes + rest;
          Regroup(first.bytes, ConstantsBytes(pl, first.table, ks[i + 1..]).bytes, rest);
        }
        var k := ReadConstant(if next then ks[i] else Nil, after);
        if k.Err? {
          return Err(k.error);
        }
        list := list + [k.value];
      }
      r := Ok(list);
      if next {
        assert ks[|list|..] == [] && ks[..|list|] == ks && [] + rest == rest;
      }
    }

    method ReadLocalVariable(ghost lv: LocalVariable, ghost rest: Bytes) returns (r: Result<LocalVariable>)
      requires pl.Valid()
      modifies this`input, this`absent, this`strings
      ensures |input| <= |old(input)|
      ensures Next(old(Whole()), LocalBytes(pl, old(strings), lv), rest) && FitsLocal(pl, lv) ==>
        if Enough(rest) then r == Ok(lv) && HasRead(LocalBytes(pl, old(strings), lv), rest)
        else r == Err(Truncated)
    {
      hide StringBytes, IntBytes, FitsIn, FitsString, ReuseBit;
      ghost var name, pcs := StringBytes(pl, strings, lv.name).bytes, IntBytes(pl, lv.endPC) + rest;
      assert name + IntBytes(pl, lv.startPC) + IntBytes(pl, lv.endPC) + rest == name + (IntBytes(pl, lv.startPC) + pcs);
      var s := ReadString(Some(lv.name), IntBytes(pl, lv.startPC) + pcs);
      if s.Err? {
        return Err(s.error);
      }
      var start := ReadInt(lv.startPC, pcs);
      if start.Err? {
        return Err(start.error);
      }
      var end := ReadInt(lv.endPC, rest);
      if end.Err? {
        return Err(end.error);
      }
      r := Ok(LocalVariable(s.value, start.value, end.value));
    }

    method ReadLocalVariables(ghost ls: seq<LocalVariable>, ghost rest: Bytes) returns (r: Result<seq<LocalVariable>>)
      requires pl.Valid()
      modifies this`input, this`absent, this`strings
      ensures |input| <= |old(input)|
      ensures
        var printed := CountedLocals(pl, old(strings), ls);
        Next(old(Whole()), printed, rest) && |ls| < LIST_LIMIT && (forall i :: 0 <= i < |ls| ==> FitsLocal(pl, ls[i])) ==>
          if Enough(rest) then r == Ok(ls) && HasRead(printed, rest)
          else r == Err(Truncated)
    {
      hide LocalBytes, IntBytes, FitsLocal, ReuseBit;
      ghost var printed, was := CountedLocals(pl, strings, ls), input;
      ghost var next := Next(Whole(), printed, rest) && |ls| < LIST_LIMIT && (forall i :: 0 <= i < |ls| ==> FitsLocal(pl, ls[i]));
      ghost var after := LocalsBytes(pl, strings, ls).bytes + rest;
      Regroup(IntBytes(pl, |ls|), LocalsBytes(pl, strings, ls).bytes, rest);
      var n := ReadCount(|ls|, after);
      if n.Err? {
        return Err(n.error);
      }
      var list: seq<LocalVariable> := [];
      assert ls[0..] == ls;
      while |list| < n.value
        invariant |list| <= n.value && |input| <= |was|
        invariant next ==> n.value == |ls| && list == ls[..|list|]
        invariant next ==> Owing(LocalsBytes(pl, strings, ls[|list|..]), printed.table, rest)
        decreases n.value - |list|
      {
        ghost var i := |list|;
        if next {
          assert ls[i..][0] == ls[i] && ls[i..][1..] == ls[i + 1..];
          ghost var first := LocalBytes(pl, strings, ls[i]);
          after := LocalsBytes(pl, first.table, ls[i + 1..]).bytes + rest;
          Regroup(first.bytes, LocalsBytes(pl, first.table, ls[i + 1..]).bytes, rest);
        }
        var lv := ReadLocalVariable(if next then ls[i] else LocalVariable([], 0, 0), after);
        if lv.Err? {
          return Err(lv.error);
        }
        list := list + [lv.value];
      }
      r := Ok(list);
      if next {
        assert ls[|list|..] == [] && ls[..|list|] == ls && [] + rest == rest;
      }
    }

    /** Names of upvalues are next. */
    ghost predicate NamesNext(was: Bytes, table: seq<Bytes>, us: seq<UpValueDesc>, rest: Bytes) {
      && Next(was, CountedNames(pl, table, us), rest) && |us| < LIST_LIMIT
      && (forall i :: 0 <= i < |us| ==> FitsString(pl, us[i].name))
    }

    /** Reads upvalues' names, at most as many as there are upvalues: of the
        named us, or none. */
    method ReadNames(unnamed: seq<UpValueDesc>, ghost us: seq<UpValueDesc>, ghost rest: Bytes)
      returns (r: Result<seq<UpValueDesc>>)
      requires pl.Valid()
      modifies this`input, this`absent, this`strings
      ensures |input| <= |old(input)|
      ensures NamesNext(old(Whole()), old(strings), us, rest) && unnamed == Unnamed(us) ==>
        if Enough(rest) then r == Ok(us) && HasRead(CountedNames(pl, old(strings), us), rest)
        else r == Err(Truncated)
      ensures old(Whole()) == IntBytes(pl, 0) + rest && us == [] ==>
        if Enough(rest) then r == Ok(unnamed) && HasRead(Printed([], old(strings)), rest)
        else r == Err(Truncated)
    {
      hide IntBytes, NamesBytes, FitsString, ReuseBit;
      ghost var after := NamesBytes(pl, strings, us).bytes + rest;
      Regroup(IntBytes(pl, |us|), NamesBytes(pl, strings, us).bytes, rest);
      NoNames(pl, strings, rest);
      var n := ReadCount(|us|, after);
      if n.Err? {
        return Err(n.error);
      }
      if n.value > |unnamed| {
        return Err(Corrupted);
      }
      r := FillNames(unnamed, n.value, us, rest);
    }

    lemma NoNames(pl: Platform, table: seq<Bytes>, rest: Bytes)
      ensures NamesBytes(pl, table, []) == Printed([], table) && [] + rest == rest
    {
    }

    method FillNames(unnamed: seq<UpValueDesc>, n: nat, ghost us: seq<UpValueDesc>, ghost rest: Bytes)
      returns (r: Result<seq<UpValueDesc>>)
      requires pl.Valid() && n <= |unnamed|
      modifies this`input, this`absent, this`strings
      ensures |input| <= |old(input)|
      ensures n == 0 ==> r == Ok(unnamed) && input == old(input) && strings == old(strings)
      ensures NamesAhead(old(Whole()), old(strings), us, rest) && n == |us| && unnamed == Unnamed(us) ==>
        if Enough(rest) then r == Ok(us) && HasRead(NamesBytes(pl, old(strings), us), rest)
        else r == Err(Truncated)
    {
      hide StringBytes, FitsString, ReuseBit, Named, Unnamed;
      ghost var printed, was, start := NamesBytes(pl, strings, us), input, strings;
      ghost var next := NamesAhead(Whole(), strings, us, rest) && n == |us| && unnamed == Unnamed(us);
      var list, i := unnamed, 0;
      assert us[0..] == us && Named(us, 0) == Unnamed(us);
      while i < n
        invariant 0 <= i <= n <= |list| && |input| <= |was|
        invariant i == 0 ==> list == unnamed && input == was && strings == start
        invariant next ==> list == Named(us, i)
        invariant next ==> Owing(NamesBytes(pl, strings, us[i..]), printed.table, rest)
      {
        ghost var after := rest;
        if next {
          assert us[i..][0] == us[i] && us[i..][1..] == us[i + 1..];
          ghost var first := StringBytes(pl, strings, us[i].name);
          after := NamesBytes(pl, first.table, us[i + 1..]).bytes + rest;
          Regroup(first.bytes, NamesBytes(pl, first.table, us[i + 1..]).bytes, rest);
          NameStep(us, i);
        }
        var name := ReadString(if next then Some(us[i].name) else None, after);
        if name.Err? {
          return Err(name.error);
        }
        list := list[i := list[i].(name := name.value)];
        i := i + 1;
      }
      r := Ok(list);
      if next {
        assert us[i..] == [] && Named(us, |us|) == us && [] + rest == rest;
      }
    }

    ghost predicate NamesAhead(was: Bytes, table: seq<Bytes>, us: seq<UpValueDesc>, rest: Bytes) {
      && Next(was, NamesBytes(pl, table, us), rest)
      && (forall i :: 0 <= i < |us| ==> FitsString(pl, us[i].name))
    }

    /** What remains to be read of a list, and the strings at its end. */
    ghost predicate Owing(printed: Printed, table: seq<Bytes>, rest: Bytes)
      reads this
    {
      Whole() == printed.bytes + rest && printed.table == table
    }

    lemma Regroup(a: Bytes, b: Bytes, c: Bytes)
      ensures (a + b) + c == a + (b + c)
    {
    }

    method ReadFloat(ghost bits: nat, ghost rest: Bytes) returns (r: Result<nat>)
      modifies this`input
      ensures |input| <= |old(input)|
      ensures old(Whole()) == Encode(pl, bits, 8) + rest && bits < Pow256(8) ==>
        if Enough(rest) then r == Ok(bits) && Whole() == rest else r == Err(Truncated)
    {
      var b := Take(8);
      if b.Err? {
        return Err(b.error);
      }
      if old(Whole()) == Encode(pl, bits, 8) + rest && bits < Pow256(8) {
        Split(b.value, Whole(), Encode(pl, bits, 8), rest);
        EncodeDecode(pl, bits, 8);
      }
      r := Ok(Decode(pl, b.value));
    }

    method ReadInteger(ghost i: int, ghost rest: Bytes) returns (r: Result<int>)
      modifies this`input
      ensures |input| <= |old(input)|
      ensures old(Whole()) == Encode(pl, i, 8) + rest && FitsIn(i, 8) ==>
        if Enough(rest) then r == Ok(i) && Whole() == rest else r == Err(Truncated)
    {
      var b := Take(8);
      if b.Err? {
        return Err(b.error);
      }
      if old(Whole()) == Encode(pl, i, 8) + rest && FitsIn(i, 8) {
        Split(b.value, Whole(), Encode(pl, i, 8), rest);
        EncodeSigned(pl, i, 8);
      }
      r := Ok(Signed(pl, b.value));
    }

    // ---------- Debug information ----------

    /** A function's debug information is next, after its unnamed upvalues. */
    ghost predicate DebugNext(was: Bytes, table: seq<Bytes>, p: Proto, parent: Option<Bytes>, strip: bool, rest: Bytes) {
      Next(was, DebugBytes(pl, table, p, parent, strip), rest) && Fits(pl, p)
    }

    method ReadDebug(unnamed: seq<UpValueDesc>, ghost p: Proto, ghost parent: Option<Bytes>, ghost strip: bool, ghost rest: Bytes)
      returns (r: Result<Debug>)
      requires pl.Valid()
      modifies this`input, this`absent, this`strings
      ensures |input| <= |old(input)|
      ensures DebugNext(old(Whole()), old(strings), p, parent, strip, rest) && unnamed == Unnamed(p.upValues) ==>
        if Enough(rest) then r == Ok(RawDebug(p, parent, strip)) && HasRead(DebugBytes(pl, old(strings), p, parent, strip), rest)
        else r == Err(Truncated)
    {
      hide DebugBytes, SourceBytes, StringBytes, IntBytes, CountedInts, CountedLocals, CountedNames, Fits, ReuseBit, FitsIn, IntsFit;
      ghost var parts := DebugParts(pl, strings, p, parent, strip);
      PartsTogether(pl, strings, p, parent, strip, rest);
      FitsDebug(pl, p);
      if Fits(pl, p) {
        PartsMeaning(pl, strings, p, parent, strip);
      }
      var s := ReadString(parts.source, parts.lines + (parts.locals + (parts.names + rest)));
      if s.Err? {
        return Err(s.error);
      }
      var source := if s.value == [] && absent then None else Some(s.value);
      var lineInfo := ReadInts(4, true, if strip then [] else p.lineInfo, parts.locals + (parts.names + rest));
      if lineInfo.Err? {
        return Err(lineInfo.error);
      }
      var locals := ReadLocalVariables(if strip then [] else p.locals, parts.names + rest);
      if locals.Err? {
        return Err(locals.error);
      }
      var names := ReadNames(unnamed, if strip then [] else p.upValues, rest);
      if names.Err? {
        return Err(names.error);
      }
      r := Ok(Debug(source, lineInfo.value, locals.value, names.value));
    }

    // ---------- Functions ----------

    /** Reads what comes before a function's constants. */
    method ReadHead(ghost p: Proto, ghost rest: Bytes) returns (r: Result<Head>)
      requires pl.Valid()
      modifies this`input
      ensures |input| <= |old(input)| && (r.Ok? ==> |input| < |old(input)|)
      ensures old(Whole()) == HeadBytes(pl, p) + rest && Fits(pl, p) ==>
        if Enough(rest) then r == Ok(HeadOf(p)) && Whole() == rest else r == Err(Truncated)
    {
      hide IntBytes, CountedInts, FitsIn, IntsFit;
      FitsHead(pl, p);
      ghost var flags, code := [p.parameterCount % 256, VarArgByte(p), p.maxStackSize % 256], CountedInts(pl, p.code, pl.instructionSize);
      Regroup4(IntBytes(pl, p.lineDefined), IntBytes(pl, p.lastLineDefined), flags, code, rest);
      var first := ReadInt(p.lineDefined, IntBytes(pl, p.lastLineDefined) + (flags + (code + rest)));
      if first.Err? {
        return Err(first.error);
      }
      var last := ReadInt(p.lastLineDefined, flags + (code + rest));
      if last.Err? {
        return Err(last.error);
      }
      var b := Take(3);
      if b.Err? {
        return Err(b.error);
      }
      if old(Whole()) == HeadBytes(pl, p) + rest && Fits(pl, p) {
        Split(b.value, Whole(), flags, code + rest);
        VarArgBits(p);
      }
      var instructions := ReadInts(pl.instructionSize, false, p.code, rest);
      if instructions.Err? {
        return Err(instructions.error);
      }
      r := Ok(Head(first.value, last.value, b.value[0], b.value[1] % 2 == 1, b.value[1] / 2, b.value[2], instructions.value));
    }

    /** A function is next. */
    ghost predicate FunctionNext(was: Bytes, table: seq<Bytes>, p: Proto, parent: Option<Bytes>, strip: bool, rest: Bytes) {
      Next(was, FunctionBytes(pl, table, p, parent, strip), rest) && Fits(pl, p)
    }

    /** Reads a function and those nested in it: p, but for what is not written
        of it. */
    method ReadFunction(ghost p: Proto, ghost parent: Option<Bytes>, ghost strip: bool, ghost rest: Bytes) returns (r: Result<Proto>)
      requires pl.Valid()
      modifies this`input, this`absent, this`strings
      ensures |input| <= |old(input)| && (r.Ok? ==> |input| < |old(input)|)
      ensures FunctionNext(old(Whole()), old(strings), p, parent, strip, rest) ==>
        if Enough(rest) then r == Ok(Raw(p, parent, strip)) && HasRead(FunctionBytes(pl, old(strings), p, parent, strip), rest)
        else r == Err(Truncated)
      decreases |input|, 1
    {
      hide FunctionBytes, HeadBytes, CountedConstants, CountedFunctions, CountedUpValues, DebugBytes, Fits, ReuseBit, FitsConstant, Raw;
      ghost var ks := CountedConstants(pl, strings, p.constants);
      ghost var nested := CountedFunctions(pl, ks.table, p, strip);
      ghost var us, debug := CountedUpValues(pl, p.upValues), DebugBytes(pl, nested.table, p, parent, strip);
      ghost var after1 := ks.bytes + (nested.bytes + (us + (debug.bytes + rest)));
      FunctionInParts(pl, strings, p, parent, strip, rest);
      FitsParts(pl, p);
      var head := ReadHead(p, after1);
      if head.Err? {
        return Err(head.error);
      }
      var constants := ReadConstants(p.constants, nested.bytes + (us + (debug.bytes + rest)));
      if constants.Err? {
        return Err(constants.error);
      }
      var prototypes := ReadPrototypes(p, strip, us + (debug.bytes + rest));
      if prototypes.Err? {
        return Err(prototypes.error);
      }
      var upValues := ReadUpValues(p.upValues, debug.bytes + rest);
      if upValues.Err? {
        return Err(upValues.error);
      }
      var d := ReadDebug(upValues.value, p, parent, strip, rest);
      if d.Err? {
        return Err(d.error);
      }
      r := Ok(Assemble(head.value, constants.value, prototypes.value, d.value));
      RawParts(p, parent, strip);
    }

    method ReadPrototypes(ghost p: Proto, ghost strip: bool, ghost rest: Bytes) returns (r: Result<seq<Proto>>)
      requires pl.Valid()
      modifies this`input, this`absent, this`strings
      ensures |input| <= |old(input)|
      ensures Next(old(Whole()), CountedFunctions(pl, old(strings), p, strip), rest) && NestedFit(pl, p) ==>
        if Enough(rest) then r == Ok(RawAll(p.prototypes, p.source, strip)) && HasRead(CountedFunctions(pl, old(strings), p, strip), rest)
        else r == Err(Truncated)
      decreases |input|, 0
    {
      hide FunctionBytes, IntBytes, Fits, ReuseBit, Raw;
      ghost var ps := p.prototypes;
      ghost var printed, was := CountedFunctions(pl, strings, p, strip), input;
      ghost var next := Next(Whole(), printed, rest) && NestedFit(pl, p);
      ghost var after := FunctionsBytes(pl, strings, ps, p.source, strip).bytes + rest;
      Regroup(IntBytes(pl, |ps|), FunctionsBytes(pl, strings, ps, p.source, strip).bytes, rest);
      var n := ReadCount(|ps|, after);
      if n.Err? {
        return Err(n.error);
      }
      var list: seq<Proto> := [];
      assert ps[0..] == ps;
      while |list| < n.value
        invariant |list| <= n.value && |input| < |was|
        invariant next ==> n.value == |ps| && list == RawAll(ps[..|list|], p.source, strip)
        invariant next ==> Owing(FunctionsBytes(pl, strings, ps[|list|..], p.source, strip), printed.table, rest)
        decreases n.value - |list|
      {
        ghost var i := |list|;
        if next {
          assert ps[i..][0] == ps[i] && ps[i..][1..] == ps[i + 1..];
          ghost var first := FunctionBytes(pl, strings, ps[i], p.source, strip);
          after := FunctionsBytes(pl, first.table, ps[i + 1..], p.source, strip).bytes + rest;
          Regroup(first.bytes, FunctionsBytes(pl, first.table, ps[i + 1..], p.source, strip).bytes, rest);
          RawAllNext(ps, i, p.source, strip);
        }
        var f := ReadFunction(if next then ps[i] else p, p.source, strip, after);
        if f.Err? {
          return Err(f.error);
        }
        list := list + [f.value];
      }
      r := Ok(list);
      if next {
        assert ps[|list|..] == [] && ps[..|list|] == ps && [] + rest == rest;
      }
    }
  }

  /** What comes before a function's constants. */
  datatype Head = Head(lineDefined: int, lastLineDefined: int, parameterCount: int, isVarArg: bool, varArgKind: int,
                       maxStackSize: int, code: seq<int>)

  function HeadOf(p: Proto): Head {
    Head(p.lineDefined, p.lastLineDefined, p.parameterCount, p.isVarArg, p.varArgKind, p.maxStackSize, p.code)
  }

  function Assemble(h: Head, constants: seq<Constant>, prototypes: seq<Proto>, d: Debug): Proto {
    Proto(h.lineDefined, h.lastLineDefined, h.parameterCount, h.isVarArg, h.varArgKind, h.maxStackSize, h.code,
          constants, prototypes, d.upValues, d.source, d.lineInfo, d.locals)
  }

  /** A function as it is read, before it inherits a source. */
  function Raw(p: Proto, parent: Option<Bytes>, strip: bool): Proto
    decreases p, 1
  {
    Assemble(HeadOf(p), p.constants, RawAll(p.prototypes, p.source, strip), RawDebug(p, parent, strip))
  }

  function RawAll(ps: seq<Proto>, parent: Option<Bytes>, strip: bool): (r: seq<Proto>)
    ensures |r| == |ps|
    decreases ps, 0
  {
    if ps == [] then [] else RawAll(ps[..|ps| - 1], parent, strip) + [Raw(ps[|ps| - 1], parent, strip)]
  }

  lemma RawParts(p: Proto, parent: Option<Bytes>, strip: bool)
    ensures Raw(p, parent, strip) ==
      Assemble(HeadOf(p), p.constants, RawAll(p.prototypes, p.source, strip), RawDebug(p, parent, strip))
  {
  }

  lemma RawAllNext(ps: seq<Proto>, i: nat, parent: Option<Bytes>, strip: bool)
    requires i < |ps|
    ensures RawAll(ps[..i + 1], parent, strip) == RawAll(ps[..i], parent, strip) + [Raw(ps[i], parent, strip)]
  {
    assert ps[..i + 1][..i] == ps[..i];
  }

  function CountedFunctions(pl: Platform, table: seq<Bytes>, p: Proto, strip: bool): Printed {
    Then(IntBytes(pl, |p.prototypes|), FunctionsBytes(pl, table, p.prototypes, p.source, strip))
  }

  lemma FunctionInParts(pl: Platform, table: seq<Bytes>, p: Proto, parent: Option<Bytes>, strip: bool, rest: Bytes)
    ensures
      var ks := CountedConstants(pl, table, p.constants);
      var nested := CountedFunctions(pl, ks.table, p, strip);
      var us, debug := CountedUpValues(pl, p.upValues), DebugBytes(pl, nested.table, p, parent, strip);
      && FunctionBytes(pl, table, p, parent, strip).bytes + rest ==
         HeadBytes(pl, p) + (ks.bytes + (nested.bytes + (us + (debug.bytes + rest))))
      && FunctionBytes(pl, table, p, parent, strip).table == debug.table
      && |table| <= |ks.table| <= |nested.table| <= |debug.table|
  {
    hide HeadBytes, CountedConstants, CountedUpValues, DebugBytes, FunctionsBytes, IntBytes;
    var ks := CountedConstants(pl, table, p.constants);
    var nested := CountedFunctions(pl, ks.table, p, strip);
    var debug := DebugBytes(pl, nested.table, p, parent, strip);
    Regroup5(HeadBytes(pl, p), ks.bytes, nested.bytes, CountedUpValues(pl, p.upValues), debug.bytes, rest);
  }

  lemma Regroup5(a: Bytes, b: Bytes, c: Bytes, d: Bytes, e: Bytes, f: Bytes)
    ensures (a + b + c + d + e) + f == a + (b + (c + (d + (e + f))))
  {
  }

  predicate NestedFit(pl: Platform, p: Proto) {
    |p.prototypes| < LIST_LIMIT && forall i :: 0 <= i < |p.prototypes| ==> Fits(pl, p.prototypes[i])
  }

  lemma FitsParts(pl: Platform, p: Proto)
    ensures Fits(pl, p) ==>
      && |p.constants| < LIST_LIMIT && (forall i :: 0 <= i < |p.constants| ==> FitsConstant(pl, p.constants[i]))
      && NestedFit(pl, p) && |p.upValues| < LIST_LIMIT && IndexesFit(p.upValues)
  {
  }

  lemma FitsHead(pl: Platform, p: Proto)
    ensures Fits(pl, p) ==>
      && FitsIn(p.lineDefined, 4) && FitsIn(p.lastLineDefined, 4)
      && 0 <= p.parameterCount < 256 && 0 <= p.varArgKind < 128 && 0 <= p.maxStackSize < 256
      && |p.code| < LIST_LIMIT && IntsFit(p.code, pl.instructionSize, false)
  {
  }

  lemma VarArgBits(p: Proto)
    requires 0 <= p.varArgKind < 128
    ensures (VarArgByte(p) % 2 == 1) == p.isVarArg && VarArgByte(p) / 2 == p.varArgKind
  {
  }

  /** The parts in order are the debug information. */
  lemma PartsTogether(pl: Platform, table: seq<Bytes>, p: Proto, parent: Option<Bytes>, strip: bool, rest: Bytes)
    ensures
      var parts := DebugParts(pl, table, p, parent, strip);
      DebugBytes(pl, table, p, parent, strip).bytes + rest ==
        parts.sourceBytes + (parts.lines + (parts.locals + (parts.names + rest)))
  {
    hide SourceBytes, CountedLocals, CountedNames, IntBytes, AbsentBytes;
    if strip {
      StrippedParts(pl, table);
    }
    var parts := DebugParts(pl, table, p, parent, strip);
    Regroup4(parts.sourceBytes, parts.lines, parts.locals, parts.names, rest);
  }

  lemma StrippedParts(pl: Platform, table: seq<Bytes>)
    ensures CountedInts(pl, [], 4) == IntBytes(pl, 0) && CountedLocals(pl, table, []) == Printed(IntBytes(pl, 0), table)
  {
  }

  lemma Regroup4(a: Bytes, b: Bytes, c: Bytes, d: Bytes, e: Bytes)
    ensures (a + b + c + d) + e == a + (b + (c + (d + e)))
  {
  }

  /** What each part is, and the strings after it. */
  lemma PartsMeaning(pl: Platform, table: seq<Bytes>, p: Proto, parent: Option<Bytes>, strip: bool)
    requires p.source.Some?
    ensures
      var parts := DebugParts(pl, table, p, parent, strip);
      && parts.source == OwnSource(p, parent, strip)
      && Printed(parts.sourceBytes, parts.table1) ==
         (if parts.source.None? then Printed(AbsentBytes(pl), table) else StringBytes(pl, table, parts.source.value))
      && Printed(parts.locals, parts.table2) == CountedLocals(pl, parts.table1, if strip then [] else p.locals)
      && Printed(parts.names, DebugBytes(pl, table, p, parent, strip).table) ==
         (if strip then Printed(IntBytes(pl, 0), table) else CountedNames(pl, parts.table2, p.upValues))
      && (strip ==> parts.table2 == table)
      && |table| <= |parts.table1| <= |parts.table2| <= |DebugBytes(pl, table, p, parent, strip).table|
  {
  }

  lemma FitsDebug(pl: Platform, p: Proto)
    ensures Fits(pl, p) ==>
      && p.source.Some? && FitsString(pl, p.source.value)
      && |p.lineInfo| < LIST_LIMIT && IntsFit(p.lineInfo, 4, true)
      && |p.locals| < LIST_LIMIT && (forall i :: 0 <= i < |p.locals| ==> FitsLocal(pl, p.locals[i]))
      && |p.upValues| < LIST_LIMIT && IndexesFit(p.upValues)
      && (forall i :: 0 <= i < |p.upValues| ==> FitsString(pl, p.upValues[i].name))
    ensures IntsFit([], 4, true)
  {
  }

  /** What debug information gives a function; a source may be missing. */
  datatype Debug = Debug(source: Option<Bytes>, lineInfo: seq<int>, locals: seq<LocalVariable>, upValues: seq<UpValueDesc>)

  /** A function's own source, unless it is not written with the function. */
  function OwnSource(p: Proto, parent: Option<Bytes>, strip: bool): Option<Bytes> {
    if strip || p.source == parent then None else p.source
  }

  function RawDebug(p: Proto, parent: Option<Bytes>, strip: bool): Debug {
    if strip then Debug(None, [], [], Unnamed(p.upValues))
    else Debug(OwnSource(p, parent, strip), p.lineInfo, p.locals, p.upValues)
  }

  /** Debug information as its four parts, with the strings before locals and
      before names. */
  datatype Parts = Parts(source: Option<Bytes>, sourceBytes: Bytes, lines: Bytes, locals: Bytes, names: Bytes,
                         table1: seq<Bytes>, table2: seq<Bytes>)

  function DebugParts(pl: Platform, table: seq<Bytes>, p: Proto, parent: Option<Bytes>, strip: bool): Parts {
    if strip then
      Parts(None, AbsentBytes(pl), CountedInts(pl, [], 4), CountedLocals(pl, table, []).bytes, IntBytes(pl, 0), table, table)
    else
      var source := SourceBytes(pl, table, p, parent);
      var locals := CountedLocals(pl, source.table, p.locals);
      Parts(OwnSource(p, parent, strip), source.bytes, CountedInts(pl, p.lineInfo, 4), locals.bytes,
            CountedNames(pl, locals.table, p.upValues).bytes, source.table, locals.table)
  }

  // ---------- Numbers and upvalues as chunks ----------

  predicate IntsFit(ints: seq<int>, n: nat, signed: bool) {
    forall i :: 0 <= i < |ints| ==> if signed then FitsIn(ints[i], n) else 0 <= ints[i] < Pow256(n)
  }

  function Encodings(pl: Platform, ints: seq<int>, n: nat): (r: seq<Bytes>)
    ensures |r| == |ints| && forall i :: 0 <= i < |r| ==> r[i] == Encode(pl, ints[i], n)
  {
    seq(|ints|, i requires 0 <= i < |ints| => Encode(pl, ints[i], n))
  }

  function Decodings(pl: Platform, chunks: seq<Bytes>, signed: bool): (r: seq<int>)
    ensures |r| == |chunks|
    ensures forall i :: 0 <= i < |r| ==> r[i] == if signed then Signed(pl, chunks[i]) else Decode(pl, chunks[i])
  {
    seq(|chunks|, i requires 0 <= i < |chunks| => if signed then Signed(pl, chunks[i]) else Decode(pl, chunks[i]))
  }

  lemma {:induction false} IntsFlatten(pl: Platform, ints: seq<int>, n: nat)
    ensures IntsBytes(pl, ints, n) == Flatten(Encodings(pl, ints, n))
    decreases ints
  {
    if ints != [] {
      assert Encodings(pl, ints, n)[1..] == Encodings(pl, ints[1..], n);
      IntsFlatten(pl, ints[1..], n);
    }
  }

  lemma DecodeEncodings(pl: Platform, ints: seq<int>, n: nat, signed: bool)
    requires IntsFit(ints, n, signed)
    ensures Decodings(pl, Encodings(pl, ints, n), signed) == ints
  {
    hide Encode, Decode, Signed, FitsIn, Pow256;
    forall i | 0 <= i < |ints|
      ensures Decodings(pl, Encodings(pl, ints, n), signed)[i] == ints[i]
    {
      if signed {
        EncodeSigned(pl, ints[i], n);
      } else {
        EncodeDecode(pl, ints[i], n);
      }
    }
  }

  predicate IndexesFit(us: seq<UpValueDesc>) {
    forall i :: 0 <= i < |us| ==> 0 <= us[i].index < 256
  }

  function Unnamed(us: seq<UpValueDesc>): (r: seq<UpValueDesc>)
    ensures |r| == |us| && forall i :: 0 <= i < |r| ==> r[i] == us[i].(name := [])
  {
    seq(|us|, i requires 0 <= i < |us| => us[i].(name := []))
  }

  /** The first n named, and the others not yet. */
  function Named(us: seq<UpValueDesc>, n: nat): (r: seq<UpValueDesc>)
    requires n <= |us|
    ensures |r| == |us| && forall i :: 0 <= i < |r| ==> r[i] == if i < n then us[i] else us[i].(name := [])
  {
    us[..n] + Unnamed(us[n..])
  }

  lemma NameStep(us: seq<UpValueDesc>, i: nat)
    requires i < |us|
    ensures Named(us, i)[i := Named(us, i)[i].(name := us[i].name)] == Named(us, i + 1)
  {
  }

  function Pairs(us: seq<UpValueDesc>): (r: seq<Bytes>)
    ensures |r| == |us| && forall i :: 0 <= i < |r| ==> r[i] == [BoolByte(us[i].isLocal), us[i].index % 256]
  {
    seq(|us|, i requires 0 <= i < |us| => [BoolByte(us[i].isLocal), us[i].index % 256])
  }

  function UpValuesOf(chunks: seq<Bytes>): (r: seq<UpValueDesc>)
    requires forall i :: 0 <= i < |chunks| ==> |chunks[i]| == 2
    ensures |r| == |chunks|
    ensures forall i :: 0 <= i < |r| ==> r[i] == UpValueDesc([], chunks[i][0] != 0, chunks[i][1])
  {
    seq(|chunks|, i requires 0 <= i < |chunks| => UpValueDesc([], chunks[i][0] != 0, chunks[i][1]))
  }

  lemma {:induction false} UpValuesFlatten(us: seq<UpValueDesc>)
    ensures UpValuesBytes(us) == Flatten(Pairs(us))
  {
    if us != [] {
      assert Pairs(us)[1..] == Pairs(us[1..]);
      UpValuesFlatten(us[1..]);
    }
  }

  /** Bytes in k pieces of so many. */
  function Pieces(b: Bytes, size: nat, k: nat): (r: seq<Bytes>)
    requires |b| == k * size
    ensures |r| == k && forall i :: 0 <= i < k ==> |r[i]| == size
    decreases k
  {
    if k == 0 then []
    else
      assert k * size == size + (k - 1) * size;
      [b[..size]] + Pieces(b[size..], size, k - 1)
  }

  lemma {:induction false} PiecesFlatten(chunks: seq<Bytes>, size: nat)
    requires Sized(chunks, size) && |Flatten(chunks)| == |chunks| * size
    ensures Pieces(Flatten(chunks), size, |chunks|) == chunks
  {
    if chunks != [] {
      var b := Flatten(chunks);
      assert b[..size] == chunks[0] && b[size..] == Flatten(chunks[1..]);
      FlattenLength(chunks[1..], size);
      PiecesFlatten(chunks[1..], size);
    }
  }

  // ---------- Sources ----------

  /** Each function without a source takes its parent's. */
  function InheritSources(p: Proto, parent: Bytes): Proto
    decreases p, 1
  {
    var source := if p.source.None? then parent else p.source.value;
    p.(source := Some(source), prototypes := InheritAll(p.prototypes, source))
  }

  function InheritAll(ps: seq<Proto>, parent: Bytes): (r: seq<Proto>)
    ensures |r| == |ps|
    decreases ps, 0
  {
    if ps == [] then [] else InheritAll(ps[..|ps| - 1], parent) + [InheritSources(ps[|ps| - 1], parent)]
  }

  const STRIPPED_SOURCE: Bytes := [61, 63] // "=?"

  /** A function without debug information, and with "=?" for a source. */
  function Stripped(p: Proto): Proto
    decreases p, 1
  {
    p.(source := Some(STRIPPED_SOURCE), lineInfo := [], locals := [], upValues := Unnamed(p.upValues),
       prototypes := StrippedAll(p.prototypes))
  }

  function StrippedAll(ps: seq<Proto>): (r: seq<Proto>)
    ensures |r| == |ps|
    decreases ps, 0
  {
    if ps == [] then [] else StrippedAll(ps[..|ps| - 1]) + [Stripped(ps[|ps| - 1])]
  }

  /** Every function has a source. */
  predicate Sourced(p: Proto)
    decreases p
  {
    p.source.Some? && forall i :: 0 <= i < |p.prototypes| ==> Sourced(p.prototypes[i])
  }

  lemma {:induction false} FitsSourced(pl: Platform, p: Proto)
    requires Fits(pl, p)
    ensures Sourced(p)
    decreases p
  {
    hide FitsIn, FitsString, FitsConstant, FitsLocal;
    forall i | 0 <= i < |p.prototypes|
      ensures Sourced(p.prototypes[i])
    {
      FitsSourced(pl, p.prototypes[i]);
    }
  }

  /** Inheriting gives back the sources that were left out as the parent's. */
  lemma {:induction false} InheritRestores(p: Proto, parent: Option<Bytes>, inherited: Bytes)
    requires Sourced(p) && (parent.Some? ==> parent.value == inherited)
    ensures InheritSources(Raw(p, parent, false), inherited) == p
    decreases p, 1
  {
    InheritRestoresAll(p.prototypes, p.source.value);
  }

  lemma {:induction false} InheritRestoresAll(ps: seq<Proto>, parent: Bytes)
    requires forall i :: 0 <= i < |ps| ==> Sourced(ps[i])
    ensures InheritAll(RawAll(ps, Some(parent), false), parent) == ps
    decreases ps, 0
  {
    if ps != [] {
      var n := |ps| - 1;
      InheritRestoresAll(ps[..n], parent);
      InheritRestores(ps[n], Some(parent), parent);
      assert RawAll(ps, Some(parent), false)[..n] == RawAll(ps[..n], Some(parent), false);
      assert ps == ps[..n] + [ps[n]];
    }
  }

  /** And gives all functions "=?" when all were left out. */
  lemma {:induction false} InheritStrips(p: Proto, parent: Option<Bytes>)
    ensures InheritSources(Raw(p, parent, true), STRIPPED_SOURCE) == Stripped(p)
    decreases p, 1
  {
    InheritStripsAll(p.prototypes, p.source);
  }

  lemma {:induction false} InheritStripsAll(ps: seq<Proto>, parent: Option<Bytes>)
    ensures InheritAll(RawAll(ps, parent, true), STRIPPED_SOURCE) == StrippedAll(ps)
    decreases ps, 0
  {
    if ps != [] {
      var n := |ps| - 1;
      InheritStripsAll(ps[..n], parent);
      InheritStrips(ps[n], parent);
      assert RawAll(ps, parent, true)[..n] == RawAll(ps[..n], parent, true);
    }
  }

  // ---------- Chunks ----------

  /** A header's parts. */
  lemma HeaderParts(input: Bytes, header: Bytes)
    requires |header| == 18
    ensures |input| >= 18 && input[..6] == header[..6] && input[6..12] == header[6..12] && input[12..18] == header[12..18] ==>
      input[..18] == header
    ensures |input| >= 6 ==> (input[..6] == SIGNATURE + [0x55, 4] <==> input[..4] == SIGNATURE && input[4..6] == [0x55, 4])
    ensures |input| >= 6 ==> (input[4..6] == [0x55, 4] <==> input[4] == 0x55 && input[5] == 4)
  {
    if |input| >= 18 {
      assert input[..18] == input[..6] + input[6..12] + input[12..18];
      assert header == header[..6] + header[6..12] + header[12..18];
    }
    if |input| >= 6 {
      assert input[..6] == input[..4] + input[4..6];
    }
  }

  /** Checks the header, and says how it is wrong. */
  method CheckHeader(s: LoadState) returns (error: Option<LoadError>)
    requires s.pl.Valid()
    modifies s`input
    ensures |s.input| <= |old(s.input)|
    ensures error.None? <==> HeaderBytes(s.pl) <= old(s.input)
    ensures error.None? ==> old(s.input) == HeaderBytes(s.pl) + s.input
    ensures error == Some(Truncated) <==> |old(s.input)| < 18
    ensures error == Some(NotPrecompiled) <==> |old(s.input)| >= 18 && old(s.input)[..4] != SIGNATURE
    ensures error == Some(VersionMismatch) <==>
      |old(s.input)| >= 18 && old(s.input)[..4] == SIGNATURE && old(s.input)[4..6] != [0x55, 4]
    ensures error == Some(Corrupted) <==>
      |old(s.input)| >= 18 && old(s.input)[..6] == SIGNATURE + [0x55, 4] && old(s.input)[12..18] != TAIL
    ensures error == Some(Incompatible) <==>
      && |old(s.input)| >= 18 && old(s.input)[..6] == SIGNATURE + [0x55, 4] && old(s.input)[12..18] == TAIL
      && old(s.input)[6..12] != HeaderBytes(s.pl)[6..12]
  {
    var header := HeaderBytes(s.pl);
    HeaderParts(old(s.input), header);
    var b := s.Take(18);
    match b
    case Err(e) => return Some(e);
    case Ok(h) =>
      assert h == old(s.input)[..18] && h[..4] == old(s.input)[..4] && header[..4] == SIGNATURE;
      if h == header {
        return None;
      } else if h[..4] != SIGNATURE {
        return Some(NotPrecompiled);
      } else if h[4] != header[4] || h[5] != header[5] {
        return Some(VersionMismatch);
      } else if h[12..] != TAIL {
        return Some(Corrupted);
      }
      return Some(Incompatible);
  }

  /** The main function of a chunk, and what follows the chunk; or that it was cut
      short, if it lacks anything. */
  method Load(pl: Platform, input: Bytes, ghost p: Proto, ghost strip: bool, ghost rest: Bytes, ghost cut: Bytes)
    returns (r: Result<Proto>, remaining: Bytes)
    requires pl.Valid()
    ensures input == ChunkBytes(pl, p, strip) + rest && cut == [] && Dumpable(pl, p, strip) ==>
      r == Ok(if strip then Stripped(p) else p) && remaining == rest
    ensures input + cut == ChunkBytes(pl, p, strip) && cut != [] && rest == [] && Dumpable(pl, p, strip) ==> r == Err(Truncated)
  {
    hide FunctionBytes, HeaderBytes, Fits, ReuseBit;
    var s := new LoadState(pl, input, cut);
    ghost var main := FunctionBytes(pl, [], p, None, strip).bytes;
    ghost var next := input + cut == ChunkBytes(pl, p, strip) + rest;
    assert cut == [] ==> input + cut == input;
    assert rest == [] ==> ChunkBytes(pl, p, strip) + rest == ChunkBytes(pl, p, strip);
    var error := CheckHeader(s);
    if next && |input| >= 18 {
      assert input + cut == HeaderBytes(pl) + (main + rest);
      s.Split(input[..18], input[18..] + cut, HeaderBytes(pl), main + rest);
      assert s.Whole() == main + rest;
    }
    if error.Some? {
      return Err(error.value), s.input;
    }
    r := s.ReadFunction(p, None, strip, rest);
    remaining := s.input;
    if r.Ok? {
      if Dumpable(pl, p, strip) {
        FitsSourced(pl, p);
        InheritRestores(p, None, STRIPPED_SOURCE);
        InheritStrips(p, None);
      }
      r := Ok(InheritSources(r.value, STRIPPED_SOURCE));
    }
  }

  /** A function's fields fit their encodings, and so do the places of its
      strings. */
  ghost predicate Dumpable(pl: Platform, p: Proto, strip: bool) {
    Fits(pl, p) && |FunctionBytes(pl, [], p, None, strip).table| <= ReuseBit(pl)
  }

}
