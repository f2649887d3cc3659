/** string.pack, string.unpack and string.packsize: formats, and what they write. */
module Pack {
  import opened Wrappers
  import opened Int64
  import opened Chunk

  const MAX_INT_SIZE := 16
  const INT_SIZE := 8
  const NATIVE_ALIGN := 8
  const MAX_PACK_SIZE := 0x7fff_ffff_ffff_ffff

  datatype Kind = PackInt | PackUint | PackFloat | PackNumber | PackDouble | PackChar | PackString | PackZstr
                | PackPadding | PackPadAlign | PackNop

  datatype PackFault = SizeOutOfLimits | MissingSize | InvalidOption | InvalidNext | AlignmentNotPower
                     | TooLong | MissingArgument | IntegerOverflow | UnsignedOverflow | StringTooLong | LengthTooLong
                     | HasZeros | DataTooShort | OutOfString | Unfinished | DoesNotFit | VariableLength

  /** What is left of a format, and the order and alignment in force. */
  datatype Header = Header(fmt: string, little: bool, maxAlign: nat)

  /** An option with its size, the padding before it, and the format after it. */
  datatype Step = Step(kind: Kind, size: nat, pad: nat, rest: Header) | BadFormat(fault: PackFault)

  predicate IsDigit(c: char) {
    '0' <= c <= '9'
  }

  /** A numeral read on from a, and what follows it. */
  function Numeral(fmt: string, a: nat): (nat, string)
    decreases |fmt|
  {
    if fmt != "" && IsDigit(fmt[0]) && a <= (MAX_PACK_SIZE - 9) / 10 then Numeral(fmt[1..], a * 10 + (fmt[0] as int - '0' as int))
    else (a, fmt)
  }

  lemma {:induction false} NumeralShortens(fmt: string, a: nat)
    ensures |Numeral(fmt, a).1| <= |fmt|
    decreases |fmt|
  {
    if fmt != "" && IsDigit(fmt[0]) && a <= (MAX_PACK_SIZE - 9) / 10 {
      NumeralShortens(fmt[1..], a * 10 + (fmt[0] as int - '0' as int));
    }
  }

  function NumberOf(fmt: string, def: int): (r: (int, string))
    ensures |r.1| <= |fmt|
  {
    NumeralShortens(fmt, 0);
    if fmt == "" || !IsDigit(fmt[0]) then (def, fmt) else (Numeral(fmt, 0).0, Numeral(fmt, 0).1)
  }

  /** An option of a size from 1 to 16. */
  function Sized(kind: Kind, h: Header, def: int): (s: Step)
    ensures s.Step? ==> |s.rest.fmt| <= |h.fmt| && s.pad == 0
  {
    var (n, rest) := NumberOf(h.fmt, def);
    if n < 1 || n > MAX_INT_SIZE then BadFormat(SizeOutOfLimits) else Step(kind, n, 0, h.(fmt := rest))
  }

  /** The next option, without padding. */
  function OptionOf(h: Header): (s: Step)
    requires h.fmt != ""
    ensures s.Step? ==> |s.rest.fmt| < |h.fmt| && s.pad == 0
  {
    var c, h := h.fmt[0], h.(fmt := h.fmt[1..]);
    match c
    case 'b' => Step(PackInt, 1, 0, h)
    case 'B' => Step(PackUint, 1, 0, h)
    case 'h' => Step(PackInt, 2, 0, h)
    case 'H' => Step(PackUint, 2, 0, h)
    case 'l' => Step(PackInt, 8, 0, h)
    case 'j' => Step(PackInt, 8, 0, h)
    case 'L' => Step(PackUint, 8, 0, h)
    case 'J' => Step(PackUint, 8, 0, h)
    case 'T' => Step(PackUint, 8, 0, h)
    case 'f' => Step(PackFloat, 4, 0, h)
    case 'n' => Step(PackNumber, 8, 0, h)
    case 'd' => Step(PackDouble, 8, 0, h)
    case 'i' => Sized(PackInt, h, 4)
    case 'I' => Sized(PackUint, h, 4)
    case 's' => Sized(PackString, h, 8)
    case 'c' =>
      var (n, rest) := NumberOf(h.fmt, -1);
      if n < 0 then BadFormat(MissingSize) else Step(PackChar, n, 0, h.(fmt := rest))
    case 'z' => Step(PackZstr, 0, 0, h)
    case 'x' => Step(PackPadding, 1, 0, h)
    case 'X' => Step(PackPadAlign, 0, 0, h)
    case ' ' => Step(PackNop, 0, 0, h)
    case '<' => Step(PackNop, 0, 0, h.(little := true))
    case '>' => Step(PackNop, 0, 0, h.(little := false))
    case '=' => Step(PackNop, 0, 0, h.(little := true))
    case '!' =>
      (match Sized(PackNop, h, NATIVE_ALIGN)
       case Step(_, n, _, rest) => Step(PackNop, 0, 0, rest.(maxAlign := n))
       case BadFormat(fault) => BadFormat(fault))
    case _ => BadFormat(InvalidOption)
  }

  predicate PowerOfTwo(a: nat) {
    a in {1, 2, 4, 8, 16}
  }

  function Min(a: nat, b: nat): nat {
    if a < b then a else b
  }

  /** An option that starts after total bytes, padded to its alignment. */
  function Aligned(kind: Kind, size: nat, align: nat, h: Header, total: nat): (s: Step)
    ensures s.Step? ==> s.rest == h && s.kind == kind && s.size == size
  {
    if align <= 1 || kind.PackChar? then Step(kind, size, 0, h)
    else
      var a := Min(align, h.maxAlign);
      if !PowerOfTwo(a) then BadFormat(AlignmentNotPower) else Step(kind, size, (a - total % a) % a, h)
  }

  /** The next option and its padding; for 'X', that of the option it precedes. */
  function DetailsOf(h: Header, total: nat): (s: Step)
    requires h.fmt != ""
    ensures s.Step? ==> |s.rest.fmt| < |h.fmt|
  {
    match OptionOf(h)
    case BadFormat(fault) => BadFormat(fault)
    case Step(kind, size, _, rest) =>
      if kind.PackPadAlign? then
        if rest.fmt == "" then BadFormat(InvalidNext)
        else match OptionOf(rest)
          case BadFormat(fault) => BadFormat(fault)
          case Step(next, align, _, after) =>
            if next.PackChar? || align == 0 then BadFormat(InvalidNext) else Aligned(kind, size, align, after, total)
      else Aligned(kind, size, size, rest, total)
  }

  // ---------- What options and padding mean ----------

  /** A number in decimal. */
  function Decimal(n: nat): (d: string)
    ensures d != "" && IsDigit(d[0])
  {
    var last := [(n % 10) as char + '0'];
    if n < 10 then last else Decimal(n / 10) + last
  }

  predicate NoDigitFirst(s: string) {
    s == "" || !IsDigit(s[0])
  }

  /** The largest number that a numeral can be read up to. */
  const MAX_NUMERAL := 9_223_372_036_854_775_799

  lemma {:induction false} DecimalBack(n: nat, rest: string)
    requires n <= MAX_NUMERAL && NoDigitFirst(rest)
    ensures Numeral(Decimal(n) + rest, 0) == (n, rest)
  {
    DigitsRead(n, rest);
    StopsThere(n, rest);
  }

  /** Reading the digits of n gets to n. */
  lemma {:induction false} DigitsRead(n: nat, rest: string)
    requires n <= MAX_NUMERAL
    ensures Numeral(Decimal(n) + rest, 0) == Numeral(rest, n)
    decreases n
  {
    hide Numeral;
    if n < 10 {
      DigitRead(0, n % 10, rest);
    } else {
      var last := [(n % 10) as char + '0'];
      assert Decimal(n) + rest == Decimal(n / 10) + (last + rest);
      DigitsRead(n / 10, last + rest);
      DigitRead(n / 10, n % 10, rest);
    }
  }

  lemma DigitRead(a: nat, digit: nat, rest: string)
    requires digit < 10 && a <= (MAX_PACK_SIZE - 9) / 10
    ensures Numeral([digit as char + '0'] + rest, a) == Numeral(rest, a * 10 + digit)
  {
    var fmt := [digit as char + '0'] + rest;
    assert fmt[0] == digit as char + '0' && fmt[1..] == rest;
  }

  lemma StopsThere(n: nat, rest: string)
    requires NoDigitFirst(rest)
    ensures Numeral(rest, n) == (n, rest)
  {
  }

  /** The sizes that an option of each kind may have. */
  predicate Sizes(kind: Kind, size: nat) {
    match kind
    case PackInt => 1 <= size <= MAX_INT_SIZE
    case PackUint => 1 <= size <= MAX_INT_SIZE
    case PackString => 1 <= size <= MAX_INT_SIZE
    case PackChar => true
    case PackFloat => size == 4
    case PackNumber => size == 8
    case PackDouble => size == 8
    case PackPadding => size == 1
    case _ => size == 0
  }

  /** An option spelled out, with its size where it takes one. */
  function Spelled(kind: Kind, size: nat): string {
    match kind
    case PackInt => "i" + Decimal(size)
    case PackUint => "I" + Decimal(size)
    case PackString => "s" + Decimal(size)
    case PackChar => "c" + Decimal(size)
    case PackFloat => "f"
    case PackNumber => "n"
    case PackDouble => "d"
    case PackZstr => "z"
    case PackPadding => "x"
    case PackPadAlign => "X"
    case PackNop => " "
  }

  /** An option spelled out is read as that option, with the format after it and
      order and alignment as they were. */
  lemma OptionBack(kind: Kind, size: nat, h: Header)
    requires Sizes(kind, size) && size <= MAX_NUMERAL && NoDigitFirst(h.fmt)
    ensures Spelled(kind, size) + h.fmt != ""
    ensures OptionOf(h.(fmt := Spelled(kind, size) + h.fmt)) == Step(kind, size, 0, h)
  {
    hide Decimal, Numeral;
    var fmt := Spelled(kind, size) + h.fmt;
    var letter := Spelled(kind, size)[0];
    if Spelled(kind, size) == [letter] {
      assert fmt[0] == letter && fmt[1..] == h.fmt;
    } else {
      var d := Decimal(size);
      assert fmt[0] == letter && fmt[1..] == d + h.fmt && fmt[1..][0] == d[0];
      DecimalBack(size, h.fmt);
    }
  }

  /** Whatever option is read, its size is one that its kind may have. */
  lemma OptionSizes(h: Header)
    requires h.fmt != "" && OptionOf(h).Step?
    ensures Sizes(OptionOf(h).kind, OptionOf(h).size)
  {
  }

  /** What the next option aligns to: its size, or for 'X' that of the option
      after it, but no more than the format's maximum; strings of a fixed size
      align to nothing. */
  function Alignment(h: Header): nat
    requires h.fmt != "" && OptionOf(h).Step?
  {
    var o := OptionOf(h);
    var align :=
      if o.kind.PackPadAlign? && o.rest.fmt != "" && OptionOf(o.rest).Step? then OptionOf(o.rest).size else o.size;
    var after := if o.kind.PackPadAlign? && o.rest.fmt != "" && OptionOf(o.rest).Step? then OptionOf(o.rest).rest else o.rest;
    if align <= 1 || o.kind.PackChar? then 1 else Min(align, after.maxAlign)
  }

  /** The padding is the least that aligns what comes after it. */
  lemma PaddingAligns(h: Header, total: nat)
    requires h.fmt != "" && DetailsOf(h, total).Step?
    ensures OptionOf(h).Step? && PowerOfTwo(Alignment(h))
    ensures (total + DetailsOf(h, total).pad) % Alignment(h) == 0 && DetailsOf(h, total).pad < Alignment(h)
  {
    hide OptionOf;
    LeastPadding(total, Alignment(h));
  }

  lemma LeastPadding(total: nat, a: nat)
    requires a > 0
    ensures (total + (a - total % a) % a) % a == 0 && (a - total % a) % a < a
  {
    var q, r := total / a, total % a;
    if r == 0 {
      DivUnique(a, a, 1, 0);
    } else {
      DivUnique(a - r, a, 0, a - r);
      assert total + (a - r) == a * (q + 1) by {
        assert total == a * q + r;
      }
      DivUnique(total + (a - r), a, q + 1, 0);
    }
  }

  // ---------- Values ----------

  type uint32 = x: int | 0 <= x < 0x1_0000_0000

  /** A float is its bits, and those of its rounding to 32 bits. */
  datatype Item = Integer(i: int64) | Float(bits: uint64, single: uint32) | Text(s: Bytes)

  /** What unpacking gives. */
  datatype Got = GotInteger(i: int64) | GotDouble(bits: nat) | GotSingle(bits: nat) | GotText(s: Bytes)

  datatype Packed = Packed(bytes: Bytes) | PackError(fault: PackFault)

  /** A number's low bytes in the format's order. */
  function Ordered(v: int, size: nat, little: bool): (b: Bytes)
    ensures |b| == size
  {
    if little then Digits(v, size) else Reverse(Digits(v, size))
  }

  function Zeros(n: nat): (b: Bytes)
    ensures |b| == n && forall i :: 0 <= i < n ==> b[i] == 0
  {
    seq(n, _ => 0)
  }

  /** What a value is packed as by an option that takes one. */
  function ItemBytes(kind: Kind, size: nat, little: bool, v: Item): Packed {
    match kind
    case PackInt =>
      if !v.Integer? then PackError(MissingArgument)
      else if size < INT_SIZE && !FitsIn(v.i, size) then PackError(IntegerOverflow)
      else Packed(Ordered(v.i, size, little))
    case PackUint =>
      if !v.Integer? then PackError(MissingArgument)
      else if size < INT_SIZE && !(0 <= v.i < Pow256(size)) then PackError(UnsignedOverflow)
      else Packed(Ordered(ToUint(v.i), size, little))
    case PackFloat => if v.Float? then Packed(Ordered(v.single, 4, little)) else PackError(MissingArgument)
    case PackChar =>
      if !v.Text? then PackError(MissingArgument)
      else if |v.s| > size then PackError(StringTooLong)
      else Packed(v.s + Zeros(size - |v.s|))
    case PackString =>
      if !v.Text? then PackError(MissingArgument)
      else if size < INT_SIZE && |v.s| >= Pow256(size) then PackError(LengthTooLong)
      else Packed(Ordered(ToUint(|v.s|), size, little) + v.s)
    case PackZstr =>
      if !v.Text? then PackError(MissingArgument)
      else if 0 in v.s then PackError(HasZeros)
      else Packed(v.s + [0])
    case _ => if v.Float? then Packed(Ordered(v.bits, 8, little)) else PackError(MissingArgument)
  }

  predicate TakesNone(kind: Kind) {
    kind.PackPadding? || kind.PackPadAlign? || kind.PackNop?
  }

  /** What a format packs values as, after total bytes. */
  function PackFrom(h: Header, total: nat, args: seq<Item>): Packed
    decreases |h.fmt|
  {
    if h.fmt == "" then Packed([])
    else match DetailsOf(h, total)
      case BadFormat(fault) => PackError(fault)
      case Step(kind, size, pad, rest) =>
        if size + pad > MAX_PACK_SIZE - total then PackError(TooLong)
        else if TakesNone(kind) then After(Zeros(pad + size), PackFrom(rest, total + pad + size, args))
        else if args == [] then PackError(MissingArgument)
        else match ItemBytes(kind, size, rest.little, args[0])
          case PackError(fault) => PackError(fault)
          case Packed(bytes) => After(Zeros(pad) + bytes, PackFrom(rest, total + pad + |bytes|, args[1..]))
  }

  function After(front: Bytes, p: Packed): Packed {
    match p
    case Packed(bytes) => Packed(front + bytes)
    case PackError(fault) => PackError(fault)
  }

  /** What unpacking gives back: a fixed string is filled with zeros. */
  function Back(kind: Kind, size: nat, v: Item): Got {
    match v
    case Text(s) => GotText(if kind.PackChar? && |s| <= size then s + Zeros(size - |s|) else s)
    case Float(bits, single) => if kind.PackFloat? then GotSingle(single) else GotDouble(bits)
    case Integer(i) => GotInteger(i)
  }

  function BackFrom(h: Header, total: nat, args: seq<Item>): seq<Got>
    decreases |h.fmt|
  {
    if h.fmt == "" then []
    else match DetailsOf(h, total)
      case BadFormat(_) => []
      case Step(kind, size, pad, rest) =>
        if TakesNone(kind) then BackFrom(rest, total + pad + size, args)
        else if args == [] then []
        else match ItemBytes(kind, size, rest.little, args[0])
          case PackError(_) => []
          case Packed(bytes) => [Back(kind, size, args[0])] + BackFrom(rest, total + pad + |bytes|, args[1..])
  }

  // ---------- Reading formats ----------

  /** A header that its readers update. */
  class PackHeader {
    var fmt: string
    var little: bool
    var maxAlign: nat

    constructor (fmt: string)
      ensures H() == Header(fmt, true, 1)
    {
      this.fmt, little, maxAlign := fmt, true, 1;
    }

    function H(): Header
      reads this
    {
      Header(fmt, little, maxAlign)
    }

    /** Reads a numeral, or gives def if there is none. */
    method Number(def: int) returns (n: int)
      modifies this`fmt
      ensures (n, fmt) == NumberOf(old(fmt), def)
    {
      if fmt == "" || !IsDigit(fmt[0]) {
        return def;
      }
      var a: nat := 0;
      while fmt != "" && IsDigit(fmt[0]) && a <= (MAX_PACK_SIZE - 9) / 10
        invariant Numeral(fmt, a) == Numeral(old(fmt), 0)
        decreases |fmt|
      {
        a := a * 10 + (fmt[0] as int - '0' as int);
        fmt := fmt[1..];
      }
      return a;
    }

    /** Reads an option's size, from 1 to 16. */
    method NumberLimit(kind: Kind, def: int) returns (s: Step)
      modifies this`fmt
      ensures s == Sized(kind, old(H()), def) && (s.Step? ==> H() == s.rest)
    {
      var n := Number(def);
      if n < 1 || n > MAX_INT_SIZE {
        return BadFormat(SizeOutOfLimits);
      }
      return Step(kind, n, 0, H());
    }

    /** Reads the next option. */
    method NextOption() returns (s: Step)
      requires fmt != ""
      modifies this
      ensures s == OptionOf(old(H())) && (s.Step? ==> H() == s.rest)
    {
      var c := fmt[0];
      fmt := fmt[1..];
      match c
      case 'b' => return Step(PackInt, 1, 0, H());
      case 'B' => return Step(PackUint, 1, 0, H());
      case 'h' => return Step(PackInt, 2, 0, H());
      case 'H' => return Step(PackUint, 2, 0, H());
      case 'l' => return Step(PackInt, 8, 0, H());
      case 'j' => return Step(PackInt, 8, 0, H());
      case 'L' => return Step(PackUint, 8, 0, H());
      case 'J' => return Step(PackUint, 8, 0, H());
      case 'T' => return Step(PackUint, 8, 0, H());
      case 'f' => return Step(PackFloat, 4, 0, H());
      case 'n' => return Step(PackNumber, 8, 0, H());
      case 'd' => return Step(PackDouble, 8, 0, H());
      case 'i' => s := NumberLimit(PackInt, 4);
      case 'I' => s := NumberLimit(PackUint, 4);
      case 's' => s := NumberLimit(PackString, 8);
      case 'c' =>
        var n := Number(-1);
        return if n < 0 then BadFormat(MissingSize) else Step(PackChar, n, 0, H());
      case 'z' => return Step(PackZstr, 0, 0, H());
      case 'x' => return Step(PackPadding, 1, 0, H());
      case 'X' => return Step(PackPadAlign, 0, 0, H());
      case ' ' => return Step(PackNop, 0, 0, H());
      case '<' => little := true; return Step(PackNop, 0, 0, H());
      case '>' => little := false; return Step(PackNop, 0, 0, H());
      case '=' => little := true; return Step(PackNop, 0, 0, H());
      case '!' =>
        s := NumberLimit(PackNop, NATIVE_ALIGN);
        if s.Step? {
          maxAlign := s.size;
          s := Step(PackNop, 0, 0, H());
        }
      case _ => return BadFormat(InvalidOption);
    }

    /** Reads the next option, with the padding that aligns it. */
    method Details(total: nat) returns (s: Step)
      requires fmt != ""
      modifies this
      ensures s == DetailsOf(old(H()), total) && (s.Step? ==> H() == s.rest)
    {
      var o := NextOption();
      if o.BadFormat? {
        return o;
      }
      var align := o.size;
      if o.kind.PackPadAlign? {
        if fmt == "" {
          return BadFormat(InvalidNext);
        }
        var next := NextOption();
        if next.BadFormat? {
          return next;
        }
        align := next.size;
        if next.kind.PackChar? || align == 0 {
          return BadFormat(InvalidNext);
        }
      }
      return Aligned(o.kind, o.size, align, H(), total);
    }
  }

  // ---------- Integers ----------

  /** v, divided by 256 once for each of so many bytes. */
  function Shifted(v: int, i: nat): int
    decreases i
  {
    if i == 0 then v else Shifted(v / 256, i - 1)
  }

  lemma {:induction false} ShiftedNext(v: int, i: nat)
    ensures Shifted(v, i + 1) == Shifted(v, i) / 256
    decreases i
  {
    if i > 0 {
      ShiftedNext(v / 256, i - 1);
    }
  }

  /** The bytes of n in an order, with a negative n's sign in those past 8. */
  method AppendInt(n: uint64, little: bool, size: nat, negative: bool) returns (buf: Bytes)
    ensures buf == Ordered(if negative then n - TWO64 else n, size, little)
  {
    hide Digits, Reverse, Shifted, Pow256;
    ghost var v := if negative then n - TWO64 else n;
    buf := [];
    var i, rest := 0, n;
    Powers();
    NoBytesYet(v, size);
    while i < size
      invariant 0 <= i <= size && Left(v, i, rest, negative)
      invariant Goes(buf, Digits(Shifted(v, i), size - i), little) == Ordered(v, size, little)
    {
      ByteOf(v, i, rest, negative);
      var c: byte := if i >= INT_SIZE then (if negative then 0xff else 0) else rest % 256;
      NextByte(v, i, size, buf, little);
      buf := if little then buf + [c] else [c] + buf;
      rest := rest / 256;
      i := i + 1;
    }
    AllBytes(buf, Digits(Shifted(v, i), size - i), little);
  }

  /** What is left of a number of 64 bits, of which v is the value. */
  predicate Left(v: int, i: nat, rest: int, negative: bool) {
    && rest >= 0 && Shifted(v, i) == rest - (if negative then (if i < 8 then Pow256(8 - i) else 1) else 0)
    && (if i >= 8 then rest == 0 else rest < Pow256(8 - i))
  }

  /** The bytes so far with those to come. */
  function Goes(buf: Bytes, tail: Bytes, little: bool): Bytes {
    if little then buf + tail else Reverse(tail) + buf
  }

  lemma NoBytesYet(v: int, size: nat)
    ensures Shifted(v, 0) == v && Goes([], Digits(v, size), true) == Ordered(v, size, true)
    ensures Goes([], Digits(v, size), false) == Ordered(v, size, false)
  {
  }

  lemma AllBytes(buf: Bytes, tail: Bytes, little: bool)
    requires |tail| == 0
    ensures Goes(buf, tail, little) == buf
  {
  }

  lemma NextByte(v: int, i: nat, size: nat, buf: Bytes, little: bool)
    requires i < size
    ensures Goes(buf, Digits(Shifted(v, i), size - i), little) ==
            Goes(if little then buf + [Shifted(v, i) % 256] else [Shifted(v, i) % 256] + buf,
                 Digits(Shifted(v, i + 1), size - i - 1), little)
  {
    ShiftedNext(v, i);
    var c: byte, tail := Shifted(v, i) % 256, Digits(Shifted(v, i + 1), size - i - 1);
    assert Digits(Shifted(v, i), size - i) == [c] + tail;
    if little {
      assert buf + ([c] + tail) == (buf + [c]) + tail;
    } else {
      assert ([c] + tail)[1..] == tail;
      assert (Reverse(tail) + [c]) + buf == Reverse(tail) + ([c] + buf);
    }
  }

  lemma Powers()
    ensures Pow256(8) == TWO64 && Pow256(0) == 1 && Pow256(1) == 256
  {
  }

  /** A number's next byte, and what is left of it. */
  lemma ByteOf(v: int, i: nat, rest: int, negative: bool)
    requires Left(v, i, rest, negative)
    ensures Shifted(v, i) % 256 == if i >= 8 then (if negative then 0xff else 0) else rest % 256
    ensures Left(v, i + 1, rest / 256, negative)
  {
    ShiftedNext(v, i);
    if i < 8 {
      assert Pow256(8 - i) == 256 * Pow256(7 - i);
      if i == 7 {
        assert Pow256(0) == 1;
      }
    }
  }

  /** Bytes, the lowest first, as an integer, if they are one of 64 bits. */
  function IntegerOf(d: Bytes, signed: bool): Option<int64> {
    if |d| < INT_SIZE then
      SmallFits(d);
      Some(if signed && 2 * Value(d) >= Pow256(|d|) then Value(d) - Pow256(|d|) else Value(d))
    else
      var n := Wrap(Value(d[..INT_SIZE]));
      var mask := if signed && n < 0 then 0xff else 0;
      if forall i :: INT_SIZE <= i < |d| ==> d[i] == mask then Some(n) else None
  }

  lemma {:induction false} ValueBounded(d: Bytes)
    ensures Value(d) < Pow256(|d|)
  {
    if d != [] {
      ValueBounded(d[1..]);
    }
  }

  lemma {:induction false} PowGrows(a: nat, b: nat)
    requires a <= b
    ensures 1 <= Pow256(a) <= Pow256(b)
    decreases b
  {
    if a < b {
      PowGrows(a, b - 1);
    } else if a > 0 {
      PowGrows(a - 1, b - 1);
    }
  }

  lemma SmallFits(d: Bytes)
    requires |d| < INT_SIZE
    ensures Value(d) < Pow256(|d|) <= 0x100_0000_0000_0000
  {
    ValueBounded(d);
    PowGrows(|d|, 7);
    assert Pow256(1) == 0x100 && Pow256(2) == 0x1_0000 && Pow256(3) == 0x100_0000 && Pow256(4) == 0x1_0000_0000;
    assert Pow256(5) == 0x100_0000_0000 && Pow256(6) == 0x1_0000_0000_0000 && Pow256(7) == 0x100_0000_0000_0000;
  }

  /** Reads an integer of so many bytes. */
  method UnpackInt(s: Bytes, little: bool, size: nat, signed: bool) returns (r: Option<int64>)
    requires size <= |s|
    ensures r == IntegerOf(if little then s[..size] else Reverse(s[..size]), signed)
  {
    hide Value;
    ghost var d := if little then s[..size] else Reverse(s[..size]);
    var m := if size < INT_SIZE then size else INT_SIZE;
    var res := LowBytes(s, little, size, m);
    if size < INT_SIZE {
      assert d[..m] == d;
      SmallFits(d);
      if signed && 2 * res >= Pow256(size) {
        return Some(res - Pow256(size));
      }
      return Some(res);
    }
    var n := Wrap(res);
    var fits := AllSign(s, little, size, if signed && n < 0 then 0xff else 0);
    return if fits then Some(n) else None;
  }

  method LowBytes(s: Bytes, little: bool, size: nat, m: nat) returns (res: nat)
    requires m <= size <= |s|
    ensures res == Value((if little then s[..size] else Reverse(s[..size]))[..m])
  {
    ghost var d := if little then s[..size] else Reverse(s[..size]);
    ReverseIndex(s[..size]);
    var i := m;
    res := 0;
    while i > 0
      invariant 0 <= i <= m && res == Value(d[i..m])
    {
      i := i - 1;
      assert d[i..m][1..] == d[i + 1..m];
      res := res * 256 + (if little then s[i] else s[size - 1 - i]);
    }
    assert d[0..m] == d[..m];
  }

  method AllSign(s: Bytes, little: bool, size: nat, mask: byte) returns (fits: bool)
    requires INT_SIZE <= size <= |s|
    ensures
      var d := if little then s[..size] else Reverse(s[..size]);
      fits == forall i :: INT_SIZE <= i < |d| ==> d[i] == mask
  {
    ghost var d := if little then s[..size] else Reverse(s[..size]);
    ReverseIndex(s[..size]);
    var i := INT_SIZE;
    while i < size
      invariant INT_SIZE <= i <= size && forall j :: INT_SIZE <= j < i ==> d[j] == mask
    {
      if (if little then s[i] else s[size - 1 - i]) != mask {
        assert d[i] != mask;
        return false;
      }
      i := i + 1;
    }
    return true;
  }

  lemma {:induction false} ReverseIndex(b: Bytes)
    ensures forall i :: 0 <= i < |b| ==> Reverse(b)[i] == b[|b| - 1 - i]
  {
    if b != [] {
      ReverseIndex(b[1..]);
    }
  }

  lemma {:induction false} DigitsPrefix(v: int, n: nat, m: nat)
    requires m <= n
    ensures Digits(v, n)[..m] == Digits(v, m)
    decreases m
  {
    if m > 0 {
      DigitsPrefix(v / 256, n - 1, m - 1);
    }
  }

  lemma {:induction false} DigitsBeyond(v: int, n: nat, m: nat)
    requires m <= n
    ensures Digits(v, n)[m..] == Digits(Shifted(v, m), n - m)
    decreases m
  {
    if m > 0 {
      DigitsBeyond(v / 256, n - 1, m - 1);
    }
  }

  lemma {:induction false} SignDigits(v: int, n: nat)
    requires v == 0 || v == -1
    ensures forall i :: 0 <= i < n ==> Digits(v, n)[i] == if v == 0 then 0 else 0xff
    decreases n
  {
    if n > 0 {
      SignDigits(v / 256, n - 1);
    }
  }

  lemma {:induction false} ShiftedSmall(v: int, m: nat)
    requires 0 - Pow256(m) <= v < Pow256(m)
    ensures Shifted(v, m) == if v < 0 then -1 else 0
    decreases m
  {
    if m > 0 {
      ShiftedSmall(v / 256, m - 1);
    }
  }

  /** A packed integer is read back. */
  lemma IntegerBack(n: int64, size: nat, little: bool, signed: bool)
    requires size >= 1 && (size < INT_SIZE ==> if signed then FitsIn(n, size) else 0 <= n < Pow256(size))
    ensures
      var b := Ordered(if signed then n else ToUint(n), size, little);
      IntegerOf(if little then b else Reverse(b), signed) == Some(n)
  {
    hide Digits, Value, Reverse, Pow256, Wrap;
    var v := if signed then n else ToUint(n);
    ReverseTwice(Digits(v, size));
    Powers();
    if size < INT_SIZE {
      SmallBack(n, size, signed);
    } else {
      LargeBack(n, size, signed);
    }
  }

  lemma SmallBack(n: int64, size: nat, signed: bool)
    requires 1 <= size < INT_SIZE && if signed then FitsIn(n, size) else 0 <= n < Pow256(size)
    ensures IntegerOf(Digits(if signed then n else ToUint(n), size), signed) == Some(n)
  {
    hide Digits, Value, Pow256;
    if n < 0 {
      DigitsModulo(n, size);
      DigitsValue(n + Pow256(size), size);
    } else {
      DigitsValue(n, size);
    }
  }

  lemma LargeBack(n: int64, size: nat, signed: bool)
    requires size >= INT_SIZE
    ensures IntegerOf(Digits(if signed then n else ToUint(n), size), signed) == Some(n)
  {
    hide Digits, Value, Pow256;
    var v := if signed then n else ToUint(n);
    Powers();
    DigitsPrefix(v, size, INT_SIZE);
    DigitsBeyond(v, size, INT_SIZE);
    ShiftedSmall(v, INT_SIZE);
    SignDigits(Shifted(v, INT_SIZE), size - INT_SIZE);
    if v < 0 {
      DigitsModulo(v, INT_SIZE);
      DigitsValue(v + TWO64, INT_SIZE);
    } else {
      DigitsValue(v, INT_SIZE);
    }
    var d := Digits(v, size);
    forall i | INT_SIZE <= i < size
      ensures d[i] == if v < 0 then 0xff else 0
    {
      assert d[INT_SIZE..][i - INT_SIZE] == d[i];
    }
    WrapBack(n);
  }

  lemma WrapBack(n: int64)
    ensures Wrap(ToUint(n)) == n && (n < 0 ==> ToUint(n) == n + TWO64) && (n >= 0 ==> ToUint(n) == n)
  {
  }

  // ---------- Packing ----------

  /** The bytes of a value that an option takes. */
  method PackItem(kind: Kind, size: nat, little: bool, v: Item) returns (r: Packed)
    requires !TakesNone(kind)
    ensures r == ItemBytes(kind, size, little, v)
  {
    hide FitsIn;
    match kind {
      case PackInt =>
        if !v.Integer? {
          return PackError(MissingArgument);
        } else if size < INT_SIZE && !FitsIn(v.i, size) {
          return PackError(IntegerOverflow);
        }
        WrapBack(v.i);
        var b := AppendInt(ToUint(v.i), little, size, v.i < 0);
        return Packed(b);
      case PackUint =>
        if !v.Integer? {
          return PackError(MissingArgument);
        } else if size < INT_SIZE && !(0 <= v.i < Pow256(size)) {
          return PackError(UnsignedOverflow);
        }
        var b := AppendInt(ToUint(v.i), little, size, false);
        return Packed(b);
      case PackString =>
        if !v.Text? {
          return PackError(MissingArgument);
        } else if size < INT_SIZE && |v.s| >= Pow256(size) {
          return PackError(LengthTooLong);
        }
        var b := AppendInt(ToUint(|v.s|), little, size, false);
        return Packed(b + v.s);
      case _ =>
        return ItemBytes(kind, size, little, v);
    }
  }

  /** string.pack. */
  method StringPack(fmt: string, args: seq<Item>) returns (r: Packed)
    ensures r == PackFrom(Header(fmt, true, 1), 0, args)
  {
    hide ItemBytes, DetailsOf;
    var h := new PackHeader(fmt);
    var b: Bytes, arg: nat, total: nat := [], 0, 0;
    assert args[0..] == args;
    Starts(PackFrom(h.H(), 0, args));
    while h.fmt != ""
      invariant fresh(h) && arg <= |args|
      invariant After(b, PackFrom(h.H(), total, args[arg..])) == PackFrom(Header(fmt, true, 1), 0, args)
      decreases |h.fmt|
    {
      ghost var before := h.H();
      var s := h.Details(total);
      if s.BadFormat? {
        return PackError(s.fault);
      }
      if s.size + s.pad > MAX_PACK_SIZE - total {
        return PackError(TooLong);
      }
      var front := Zeros(s.pad);
      if TakesNone(s.kind) {
        front := Zeros(s.pad + s.size);
      } else if arg == |args| {
        return PackError(MissingArgument);
      } else {
        assert args[arg..][0] == args[arg] && args[arg..][1..] == args[arg + 1..];
        var item := PackItem(s.kind, s.size, h.little, args[arg]);
        if item.PackError? {
          return item;
        }
        front := front + item.bytes;
        arg := arg + 1;
      }
      Appends(b, front, PackFrom(h.H(), total + |front|, args[arg..]));
      b, total := b + front, total + |front|;
    }
    Ends(b);
    return Packed(b);
  }

  lemma Starts(p: Packed)
    ensures After([], p) == p
  {
  }

  lemma Ends(b: Bytes)
    ensures After(b, Packed([])) == Packed(b)
  {
  }

  lemma Appends(b: Bytes, front: Bytes, p: Packed)
    ensures After(b, After(front, p)) == After(b + front, p)
  {
  }

  // ---------- Unpacking ----------

  datatype Unpacked = Unpacked(values: seq<Got>, next: nat) | UnpackError(fault: PackFault)

  /** A value read, with how many bytes it took. */
  datatype Read = Read(value: Got, used: nat) | ReadError(fault: PackFault)

  /** What an option that gives a value reads at the front of data. */
  function ReadItem(kind: Kind, size: nat, little: bool, data: Bytes): (r: Read)
    requires size <= |data| && Sizes(kind, size)
    ensures r.Read? ==> r.used <= |data|
  {
    match kind
    case PackInt =>
      (match IntegerOf(Front(data, size, little), true)
       case Some(n) => Read(GotInteger(n), size)
       case None => ReadError(DoesNotFit))
    case PackUint =>
      (match IntegerOf(Front(data, size, little), false)
       case Some(n) => Read(GotInteger(n), size)
       case None => ReadError(DoesNotFit))
    case PackFloat => Read(GotSingle(Value(Front(data, 4, little))), size)
    case PackChar => Read(GotText(data[..size]), size)
    case PackString =>
      (match IntegerOf(Front(data, size, little), false)
       case None => ReadError(DoesNotFit)
       case Some(n) =>
         if ToUint(n) > |data| - size then ReadError(DataTooShort)
         else Read(GotText(data[size..size + ToUint(n)]), size + ToUint(n)))
    case PackZstr =>
      (match ZeroAt(data)
       case None => ReadError(Unfinished)
       case Some(n) => Read(GotText(data[..n]), n + 1))
    case PackNumber => Read(GotDouble(Value(Front(data, 8, little))), size)
    case PackDouble => Read(GotDouble(Value(Front(data, 8, little))), size)
    case _ => Read(GotText([]), 0)
  }

  /** The place of the first 0. */
  function ZeroAt(data: Bytes): (n: Option<nat>)
    ensures n.Some? ==> n.value < |data| && data[n.value] == 0 && 0 !in data[..n.value]
    ensures n.None? ==> 0 !in data
  {
    if data == [] then None
    else if data[0] == 0 then Some(0)
    else match ZeroAt(data[1..])
      case None => None
      case Some(n) => Some(n + 1)
  }

  method IndexOfZero(data: Bytes) returns (n: Option<nat>)
    ensures n == ZeroAt(data)
  {
    var i := 0;
    while i < |data|
      invariant 0 <= i <= |data| && 0 !in data[..i]
    {
      if data[i] == 0 {
        FirstZero(data, i);
        return Some(i);
      }
      i := i + 1;
    }
    assert data[..i] == data;
    return None;
  }

  lemma {:induction false} FirstZero(data: Bytes, i: nat)
    requires i < |data| && data[i] == 0 && 0 !in data[..i]
    ensures ZeroAt(data) == Some(i)
    decreases i
  {
    if i > 0 {
      assert data[0] in data[..i] && data[1..][..i - 1] == data[..i][1..];
      FirstZero(data[1..], i - 1);
    }
  }

  /** Reads what an option that gives a value packed. */
  method UnpackItem(kind: Kind, size: nat, little: bool, data: Bytes) returns (r: Read)
    requires !TakesNone(kind) && size <= |data| && Sizes(kind, size)
    ensures r == ReadItem(kind, size, little, data)
  {
    hide Value, Digits, Reverse, Pow256, IntegerOf, FitsIn;
    if kind.PackInt? || kind.PackUint? {
      var n := UnpackInt(data, little, size, kind.PackInt?);
      return if n.Some? then Read(GotInteger(n.value), size) else ReadError(DoesNotFit);
    } else if kind.PackFloat? {
      return Read(GotSingle(Value(Front(data, 4, little))), size);
    } else if kind.PackChar? {
      return Read(GotText(data[..size]), size);
    } else if kind.PackString? {
      var n := UnpackInt(data, little, size, false);
      if n.None? {
        return ReadError(DoesNotFit);
      }
      var length := ToUint(n.value);
      if length > |data| - size {
        return ReadError(DataTooShort);
      }
      return Read(GotText(data[size..size + length]), size + length);
    } else if kind.PackZstr? {
      var n := IndexOfZero(data);
      return if n.None? then ReadError(Unfinished) else Read(GotText(data[..n.value]), n.value + 1);
    } else {
      return Read(GotDouble(Value(Front(data, 8, little))), size);
    }
  }

  ghost predicate ItemNext(kind: Kind, size: nat, little: bool, data: Bytes, v: Item, rest: Bytes) {
    ItemBytes(kind, size, little, v).Packed? && data == ItemBytes(kind, size, little, v).bytes + rest
  }

  /** The front of data, lowest byte first. */
  function Front(data: Bytes, n: nat, little: bool): Bytes
    requires n <= |data|
  {
    if little then data[..n] else Reverse(data[..n])
  }

  /** What was packed is read back where it is next. */
  lemma ItemBack(kind: Kind, size: nat, little: bool, data: Bytes, v: Item, rest: Bytes)
    requires !TakesNone(kind) && size <= |data| <= MAX_PACK_SIZE && Sizes(kind, size) && ItemNext(kind, size, little, data, v, rest)
    ensures ReadItem(kind, size, little, data) == Read(Back(kind, size, v), |ItemBytes(kind, size, little, v).bytes|)
  {
    hide Value, Digits, Reverse, Pow256, IntegerOf, FitsIn, ZeroAt;
    var b := ItemBytes(kind, size, little, v).bytes;
    if kind.PackInt? || kind.PackUint? {
      assert data[..size] == b;
      IntegerBack(v.i, size, little, kind.PackInt?);
    } else if kind.PackChar? {
      assert data[..size] == b;
    } else if kind.PackString? {
      var prefix := Ordered(ToUint(|v.s|), size, little);
      assert data[..size] == prefix && data[size..size + |v.s|] == v.s;
      LengthFits(|v.s|, size);
      IntegerBack(|v.s|, size, little, false);
    } else if kind.PackZstr? {
      assert data[..|v.s|] == v.s && data[|v.s|] == 0;
      FirstZero(data, |v.s|);
    } else if kind.PackFloat? {
      assert data[..4] == b;
      FloatBack(v.single, 4, little);
    } else {
      assert data[..8] == b;
      FloatBack(v.bits, 8, little);
    }
  }

  lemma LengthFits(n: nat, size: nat)
    requires n <= MAX_PACK_SIZE
    ensures ToUint(n) == n
  {
  }

  lemma FloatBack(bits: nat, n: nat, little: bool)
    requires (n == 4 && bits < 0x1_0000_0000) || (n == 8 && bits < TWO64)
    ensures
      var b := Ordered(bits, n, little);
      Value(if little then b else Reverse(b)) == bits
  {
    hide Digits, Value, Reverse, Pow256;
    Powers();
    PowerFour();
    ReverseTwice(Digits(bits, n));
    DigitsValue(bits, n);
  }

  lemma PowerFour()
    ensures Pow256(4) == 0x1_0000_0000
  {
  }

  // ---------- The round trip ----------

  lemma DetailSizes(h: Header, total: nat)
    requires h.fmt != "" && DetailsOf(h, total).Step?
    ensures Sizes(DetailsOf(h, total).kind, DetailsOf(h, total).size)
  {
  }

  function Before(v: Got, r: Unpacked): Unpacked {
    match r
    case Unpacked(values, next) => Unpacked([v] + values, next)
    case UnpackError(fault) => UnpackError(fault)
  }

  /** What a format unpacks from data at pos on. */
  function UnpackFrom(h: Header, pos: nat, data: Bytes): (r: Unpacked)
    requires pos <= |data|
    ensures r.Unpacked? ==> pos <= r.next <= |data|
    decreases |h.fmt|
  {
    if h.fmt == "" then Unpacked([], pos)
    else match DetailsOf(h, pos)
      case BadFormat(fault) => UnpackError(fault)
      case Step(kind, size, pad, rest) =>
        DetailSizes(h, pos);
        if pad + size > |data| - pos then UnpackError(DataTooShort)
        else if TakesNone(kind) then UnpackFrom(rest, pos + pad + size, data)
        else match ReadItem(kind, size, rest.little, data[pos + pad..])
          case ReadError(fault) => UnpackError(fault)
          case Read(v, used) => Before(v, UnpackFrom(rest, pos + pad + used, data))
  }

  /** Where unpacking starts: a position from 1, or back from the end. */
  function StartAt(position: int64, length: nat): int {
    if position > 0 then (if position > length + 1 then length + 1 else position - 1)
    else if position == 0 || position < 0 - length then 0
    else length + position
  }

  /** string.unpack, of a position in the string or one past it. */
  method StringUnpack(fmt: string, data: Bytes, position: int64) returns (r: Unpacked)
    ensures r ==
      if StartAt(position, |data|) > |data| then UnpackError(OutOfString)
      else UnpackFrom(Header(fmt, true, 1), StartAt(position, |data|), data)
  {
    hide DetailsOf, ReadItem, Sizes;
    if StartAt(position, |data|) > |data| {
      return UnpackError(OutOfString);
    }
    var h := new PackHeader(fmt);
    var pos: nat, values: seq<Got> := StartAt(position, |data|), [];
    ghost var all := UnpackFrom(h.H(), pos, data);
    while h.fmt != ""
      invariant fresh(h) && pos <= |data| && all == Following(values, UnpackFrom(h.H(), pos, data))
      decreases |h.fmt|
    {
      ghost var before, at := h.H(), pos;
      var s := h.Details(pos);
      if s.BadFormat? {
        return UnpackError(s.fault);
      }
      DetailSizes(before, pos);
      if s.pad + s.size > |data| - pos {
        return UnpackError(DataTooShort);
      }
      pos := pos + s.pad;
      if TakesNone(s.kind) {
        pos := pos + s.size;
      } else {
        var got := UnpackItem(s.kind, s.size, h.little, data[pos..]);
        if got.ReadError? {
          return UnpackError(got.fault);
        }
        FollowingOne(values, got.value, UnpackFrom(h.H(), pos + got.used, data));
        values, pos := values + [got.value], pos + got.used;
      }
    }
    return Unpacked(values, pos);
  }

  function Following(values: seq<Got>, r: Unpacked): Unpacked {
    match r
    case Unpacked(more, next) => Unpacked(values + more, next)
    case UnpackError(fault) => UnpackError(fault)
  }

  lemma FollowingOne(values: seq<Got>, v: Got, r: Unpacked)
    ensures Following(values, Before(v, r)) == Following(values + [v], r)
  {
    if r.Unpacked? {
      assert values + ([v] + r.values) == (values + [v]) + r.values;
    }
  }

  lemma BytesAtLeast(kind: Kind, size: nat, little: bool, v: Item)
    requires Sizes(kind, size) && !TakesNone(kind) && ItemBytes(kind, size, little, v).Packed?
    ensures |ItemBytes(kind, size, little, v).bytes| >= size
  {
  }

  /** From pos on is what is left of the format packs the values left as. */
  ghost predicate Ahead(h: Header, pos: nat, args: seq<Item>, data: Bytes, rest: Bytes) {
    && pos <= |data| && PackFrom(h, pos, args).Packed? && data[pos..] == PackFrom(h, pos, args).bytes + rest
  }

  /** What the next option packed comes next, and then what is left. */
  lemma NextStep(h: Header, pos: nat, args: seq<Item>, data: Bytes, rest: Bytes)
    requires h.fmt != "" && Ahead(h, pos, args, data, rest)
    ensures DetailsOf(h, pos).Step?
    ensures
      var s := DetailsOf(h, pos);
      if TakesNone(s.kind) then s.pad + s.size <= |data| - pos && Ahead(s.rest, pos + s.pad + s.size, args, data, rest)
      else
        && args != [] && ItemBytes(s.kind, s.size, s.rest.little, args[0]).Packed?
        && var b := ItemBytes(s.kind, s.size, s.rest.little, args[0]).bytes;
        && s.pad + |b| <= |data| - pos && data[pos + s.pad..][..|b|] == b
        && Ahead(s.rest, pos + s.pad + |b|, args[1..], data, rest)
  {
    hide ItemBytes, DetailsOf;
    var s := DetailsOf(h, pos);
    if TakesNone(s.kind) {
      Drops(data, pos, Zeros(s.pad + s.size), PackFrom(s.rest, pos + s.pad + s.size, args).bytes, rest);
    } else {
      var b := ItemBytes(s.kind, s.size, s.rest.little, args[0]).bytes;
      var front, tail := Zeros(s.pad) + b, PackFrom(s.rest, pos + s.pad + |b|, args[1..]).bytes;
      Drops(data, pos, front, tail, rest);
      assert data[pos + s.pad..] == data[pos..][s.pad..];
      assert data[pos..][..s.pad + |b|][s.pad..] == b;
      assert data[pos + s.pad..][..|b|] == b;
    }
  }

  lemma Drops(data: Bytes, pos: nat, front: Bytes, tail: Bytes, rest: Bytes)
    requires pos <= |data| && data[pos..] == (front + tail) + rest
    ensures pos + |front| <= |data| && data[pos + |front|..] == tail + rest && data[pos..][..|front|] == front
  {
  }

  /** Of data in which a format packed values from pos on, whatever is before and
      after, it unpacks the values, and where they end. */
  lemma {:induction false} UnpacksBack(h: Header, pos: nat, args: seq<Item>, data: Bytes, rest: Bytes)
    requires |data| <= MAX_PACK_SIZE && Ahead(h, pos, args, data, rest)
    ensures UnpackFrom(h, pos, data) == Unpacked(BackFrom(h, pos, args), pos + |PackFrom(h, pos, args).bytes|)
    decreases |h.fmt|
  {
    hide ItemBytes, DetailsOf, Back, ReadItem;
    if h.fmt != "" {
      NextStep(h, pos, args, data, rest);
      DetailSizes(h, pos);
      var s := DetailsOf(h, pos);
      if TakesNone(s.kind) {
        UnpacksBack(s.rest, pos + s.pad + s.size, args, data, rest);
      } else {
        BytesAtLeast(s.kind, s.size, s.rest.little, args[0]);
        var b, tail := ItemBytes(s.kind, s.size, s.rest.little, args[0]).bytes, data[pos + s.pad..];
        assert tail == b + tail[|b|..];
        ItemBack(s.kind, s.size, s.rest.little, tail, args[0], tail[|b|..]);
        UnpacksBack(s.rest, pos + s.pad + |b|, args[1..], data, rest);
      }
    }
  }

  /** Packing values and unpacking what comes of it, whatever follows, gives the
      values back. */
  method PackThenUnpack(fmt: string, args: seq<Item>, rest: Bytes) returns (packed: Packed, unpacked: Unpacked)
    ensures packed.Packed? && |packed.bytes| + |rest| <= MAX_PACK_SIZE ==>
      unpacked == Unpacked(BackFrom(Header(fmt, true, 1), 0, args), |packed.bytes|)
  {
    packed := StringPack(fmt, args);
    unpacked := UnpackError(DataTooShort);
    if packed.Packed? && |packed.bytes| + |rest| <= MAX_PACK_SIZE {
      unpacked := StringUnpack(fmt, packed.bytes + rest, 1);
      UnpacksBack(Header(fmt, true, 1), 0, args, packed.bytes + rest, rest);
    }
  }

  // ---------- Sizes ----------

  datatype PackedSize = PackedSize(n: nat) | SizeError(fault: PackFault)

  /** A fixed-length format's size, after total bytes. */
  function SizeFrom(h: Header, total: nat): PackedSize
    decreases |h.fmt|
  {
    if h.fmt == "" then PackedSize(total)
    else match DetailsOf(h, total)
      case BadFormat(fault) => SizeError(fault)
      case Step(kind, size, pad, rest) =>
        if kind.PackString? || kind.PackZstr? then SizeError(VariableLength)
        else if total > MAX_PACK_SIZE - (size + pad) then SizeError(TooLong)
        else SizeFrom(rest, total + size + pad)
  }

  /** string.packsize. */
  method StringPackSize(fmt: string) returns (r: PackedSize)
    ensures r == SizeFrom(Header(fmt, true, 1), 0)
  {
    hide DetailsOf;
    var h := new PackHeader(fmt);
    var total: nat := 0;
    while h.fmt != ""
      invariant fresh(h) && SizeFrom(h.H(), total) == SizeFrom(Header(fmt, true, 1), 0)
      decreases |h.fmt|
    {
      var s := h.Details(total);
      if s.BadFormat? {
        return SizeError(s.fault);
      }
      if s.kind.PackString? || s.kind.PackZstr? {
        return SizeError(VariableLength);
      }
      if total > MAX_PACK_SIZE - (s.size + s.pad) {
        return SizeError(TooLong);
      }
      total := total + s.size + s.pad;
    }
    return PackedSize(total);
  }

  /** The size of a fixed-length format is that of what it packs, of any values. */
  lemma {:induction false} SizeExact(h: Header, total: nat, args: seq<Item>)
    requires SizeFrom(h, total).PackedSize? && PackFrom(h, total, args).Packed?
    ensures SizeFrom(h, total).n == total + |PackFrom(h, total, args).bytes|
    decreases |h.fmt|
  {
    hide ItemBytes, DetailsOf;
    if h.fmt != "" {
      var s := DetailsOf(h, total);
      DetailSizes(h, total);
      if TakesNone(s.kind) {
        SizeExact(s.rest, total + s.size + s.pad, args);
      } else {
        FixedBytes(s.kind, s.size, s.rest.little, args[0]);
        SizeExact(s.rest, total + s.size + s.pad, args[1..]);
      }
    }
  }

  lemma FixedBytes(kind: Kind, size: nat, little: bool, v: Item)
    requires Sizes(kind, size) && !TakesNone(kind) && !kind.PackString? && !kind.PackZstr?
    requires ItemBytes(kind, size, little, v).Packed?
    ensures |ItemBytes(kind, size, little, v).bytes| == size
  {
  }
}
