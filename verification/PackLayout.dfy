/** The formats of string.pack by their letters, and the bytes that values become. */
module PackLayout {
  import opened Wrappers
  import opened Int64
  import opened Chunk
  import opened ChunkLayout
  import opened Pack

  // ---------- Letters ----------

  /** The option that a letter is, with the rest of the format after it. */
  function Read1(letter: char, rest: string, little: bool, maxAlign: nat): Step {
    OptionOf(Header([letter] + rest, little, maxAlign))
  }

  /** The letters of integers: a small one is signed and its capital is not. */
  lemma IntegerLetters(rest: string, little: bool, a: nat)
    ensures
      var h := Header(rest, little, a);
      && Read1('b', rest, little, a) == Step(PackInt, 1, 0, h) && Read1('B', rest, little, a) == Step(PackUint, 1, 0, h)
      && Read1('h', rest, little, a) == Step(PackInt, 2, 0, h) && Read1('H', rest, little, a) == Step(PackUint, 2, 0, h)
      && Read1('l', rest, little, a) == Step(PackInt, 8, 0, h) && Read1('L', rest, little, a) == Step(PackUint, 8, 0, h)
      && Read1('j', rest, little, a) == Step(PackInt, 8, 0, h) && Read1('J', rest, little, a) == Step(PackUint, 8, 0, h)
      && Read1('T', rest, little, a) == Step(PackUint, 8, 0, h)
  {
    forall letter: char
      ensures ([letter] + rest)[0] == letter && ([letter] + rest)[1..] == rest
    {
    }
  }

  /** What a letter means that only sets the order or the alignment. */
  lemma OrderLetters(rest: string, little: bool, a: nat, n: nat)
    requires 1 <= n <= 16 && NoDigitFirst(rest)
    ensures Read1('<', rest, little, a) == Step(PackNop, 0, 0, Header(rest, true, a))
    ensures Read1('>', rest, little, a) == Step(PackNop, 0, 0, Header(rest, false, a))
    ensures Read1('=', rest, little, a) == Step(PackNop, 0, 0, Header(rest, true, a))
    ensures Read1('!', Decimal(n) + rest, little, a) == Step(PackNop, 0, 0, Header(rest, little, n))
    ensures Read1('!', rest, little, a) == Step(PackNop, 0, 0, Header(rest, little, 8))
  {
    hide Decimal, Numeral;
    forall letter: char, s: string
      ensures ([letter] + s)[0] == letter && ([letter] + s)[1..] == s
    {
    }
    DecimalBack(n, rest);
    var d := Decimal(n);
    assert (d + rest)[0] == d[0];
  }

  /** Without a numeral integers have 4 bytes, a string's length 8, and a fixed string
      must have one. */
  lemma DefaultSizes(rest: string, little: bool, a: nat)
    requires NoDigitFirst(rest)
    ensures
      var h := Header(rest, little, a);
      && Read1('i', rest, little, a) == Step(PackInt, 4, 0, h) && Read1('I', rest, little, a) == Step(PackUint, 4, 0, h)
      && Read1('s', rest, little, a) == Step(PackString, 8, 0, h) && Read1('c', rest, little, a) == BadFormat(MissingSize)
  {
    forall letter: char
      ensures ([letter] + rest)[0] == letter && ([letter] + rest)[1..] == rest
    {
    }
  }

  // ---------- Bytes ----------

  /** The byte of worth 256^k is the k-th from the front in little order, and the k-th
      from the back in big order. */
  lemma OrderedBytes(v: int, size: nat, k: nat)
    requires k < size
    ensures Ordered(v, size, true)[k] == (v / Power(k)) % 256
    ensures Ordered(v, size, false)[size - 1 - k] == (v / Power(k)) % 256
  {
    DigitAt(v, size, k);
    ReverseAt(Digits(v, size), k);
  }

  /** A single signed integer, in either order: its bytes, or an error if they are too
      few. */
  lemma IntegerLayout(v: int64, size: nat, little: bool)
    requires 1 <= size <= 16
    ensures
      var p := PackFrom(Header("i" + Decimal(size), little, 1), 0, [Item.Integer(v)]);
      if size < 8 && !(0 - Power(size) <= 2 * v < Power(size)) then p == PackError(IntegerOverflow)
      else p.Packed? && |p.bytes| == size
           && forall k :: 0 <= k < size ==> p.bytes[if little then k else size - 1 - k] == (v / Power(k)) % 256
  {
    hide Decimal, Numeral, Ordered, ItemBytes, PackFrom;
    OneInteger(v, size, little);
    PowerSame(size);
    IntegerBytes(v, size, little);
    forall k | 0 <= k < size
      ensures Ordered(v, size, little)[if little then k else size - 1 - k] == (v / Power(k)) % 256
    {
      OrderedBytes(v, size, k);
    }
  }

  lemma IntegerBytes(v: int64, size: nat, little: bool)
    ensures ItemBytes(PackInt, size, little, Item.Integer(v)) ==
      if size < 8 && !FitsIn(v, size) then PackError(IntegerOverflow) else Packed(Ordered(v, size, little))
  {
  }

  /** A format of one integer packs that integer. */
  lemma OneInteger(v: int64, size: nat, little: bool)
    requires 1 <= size <= 16
    ensures
      PackFrom(Header("i" + Decimal(size), little, 1), 0, [Item.Integer(v)]) == ItemBytes(PackInt, size, little, Item.Integer(v))
  {
    hide Decimal, Numeral, Ordered, ItemBytes, OptionOf;
    var h := Header("i" + Decimal(size), little, 1);
    OptionBack(PackInt, size, Header("", little, 1));
    assert "i" + Decimal(size) + "" == "i" + Decimal(size);
    var p := ItemBytes(PackInt, size, little, Item.Integer(v));
    assert [Item.Integer(v)][1..] == [];
    assert p.Packed? ==> [] + p.bytes + [] == p.bytes;
  }

  lemma {:induction false} PowerSame(k: nat)
    ensures Power(k) == Pow256(k)
    decreases k
  {
    if k > 0 {
      PowerSame(k - 1);
    }
  }

  /** A counted string is its length and then itself, a zero-terminated one itself and
      a zero, and a fixed one itself and as many zeros as it lacks. */
  lemma TextLayout(s: Bytes, size: nat, little: bool)
    requires 1 <= size <= 16 && |s| < TWO63
    ensures size >= 8 || |s| < Power(size) ==>
      ItemBytes(PackString, size, little, Text(s)) == Packed(Ordered(|s|, size, little) + s)
    ensures 0 !in s ==> ItemBytes(PackZstr, 0, little, Text(s)) == Packed(s + [0])
    ensures |s| <= size ==> ItemBytes(PackChar, size, little, Text(s)) == Packed(s + seq(size - |s|, _ => 0))
  {
    PowerSame(size);
  }

  /** Floats are their bits, those of 32 bits for 'f'. */
  lemma FloatLayout(bits: uint64, single: uint32, little: bool)
    ensures ItemBytes(PackFloat, 4, little, Item.Float(bits, single)) == Packed(Ordered(single, 4, little))
    ensures ItemBytes(PackNumber, 8, little, Item.Float(bits, single)) == Packed(Ordered(bits, 8, little))
    ensures ItemBytes(PackDouble, 8, little, Item.Float(bits, single)) == Packed(Ordered(bits, 8, little))
  {
  }
}
