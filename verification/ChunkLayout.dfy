/** The bytes of a chunk by themselves: its header, the tags of constants, and integers
    in either order. */
module ChunkLayout {
  import opened Wrappers
  import opened Int64
  import opened Chunk

  /** The header that other implementations of the format look for: the signature, the
      version and format, the byte order, the sizes of int, pointer, instruction and
      number, that numbers are not integral, and bytes that text conversions spoil. */
  lemma HeaderOf(pl: Platform)
    requires pl.Valid()
    ensures HeaderBytes(pl) ==
      [0x1b, 'L' as int, 'u' as int, 'a' as int, 0x55, 4,
       if pl.little then 1 else 0, 4, pl.pointerSize, pl.instructionSize, 8, 0,
       0x19, 0x93, '\r' as int, '\n' as int, 0x1a, '\n' as int]
  {
  }

  /** The constants' tags, each of its own. */
  lemma TagsOf(pl: Platform, table: seq<Bytes>, bits: nat, i: int, s: Bytes)
    ensures ConstantBytes(pl, table, Nil) == Printed([0], table)
    ensures ConstantBytes(pl, table, Boolean(false)) == Printed([1, 0], table)
    ensures ConstantBytes(pl, table, Boolean(true)) == Printed([1, 1], table)
    ensures ConstantBytes(pl, table, Float(bits)).bytes[0] == 3 && |ConstantBytes(pl, table, Float(bits)).bytes| == 9
    ensures ConstantBytes(pl, table, String(s)).bytes[0] == 4
    ensures ConstantBytes(pl, table, Integer(i)).bytes[0] == 0x13 && |ConstantBytes(pl, table, Integer(i)).bytes| == 9
  {
  }

  /** 256 to the power of k. */
  function Power(k: nat): (p: nat)
    ensures p > 0
  {
    if k == 0 then 1 else 256 * Power(k - 1)
  }

  lemma {:induction false} DigitAt(v: int, n: nat, k: nat)
    requires k < n
    ensures Digits(v, n)[k] == (v / Power(k)) % 256
    decreases k
  {
    if k > 0 {
      DigitAt(v / 256, n - 1, k - 1);
      DivideTwice(v, Power(k - 1));
    }
  }

  lemma DivideTwice(v: int, p: nat)
    requires p > 0
    ensures v / 256 / p == v / (256 * p)
  {
    var q, r := v / 256 / p, v / 256 % p;
    var low := 256 * r + v % 256;
    assert v / 256 == p * q + r;
    assert v == q * (256 * p) + low by {
      assert v == 256 * (p * q + r) + v % 256;
      assert 256 * (p * q) == q * (256 * p);
    }
    assert 0 <= low < 256 * p;
    DivUnique(v, 256 * p, q, low);
  }

  lemma {:induction false} ReverseAt(b: Bytes, k: nat)
    requires k < |b|
    ensures Reverse(b)[|b| - 1 - k] == b[k]
    decreases |b|
  {
    if k > 0 {
      ReverseAt(b[1..], k - 1);
    }
  }

  /** The byte of worth 256^k comes k-th on a little platform, and k-th from the end on
      a big one. */
  lemma IntegerBytes(pl: Platform, v: int, n: nat, k: nat)
    requires k < n
    ensures Encode(pl, v, n)[if pl.little then k else n - 1 - k] == (v / Power(k)) % 256
  {
    DigitAt(v, n, k);
    ReverseAt(Digits(v, n), k);
  }

  /** A string's size counts a zero byte after it; a string written before is its place
      with the highest bit of the size set; and a missing one has size zero. */
  lemma StringsOf(pl: Platform, table: seq<Bytes>, s: Bytes)
    requires pl.Valid()
    ensures s !in table ==> StringBytes(pl, table, s) == Printed(Encode(pl, |s| + 1, pl.pointerSize) + s + [0], table + [s])
    ensures s in table ==>
      exists i: nat :: i < |table| && table[i] == s && (forall j :: 0 <= j < i ==> table[j] != s)
        && StringBytes(pl, table, s) ==
           Printed(Encode(pl, (if pl.pointerSize == 8 then 0x8000_0000_0000_0000 else 0x8000_0000) + i, pl.pointerSize), table)
    ensures AbsentBytes(pl) == Encode(pl, 0, pl.pointerSize)
  {
    HighBit(pl);
    FirstPlace(table, s);
  }

  lemma HighBit(pl: Platform)
    requires pl.Valid()
    ensures ReuseBit(pl) == if pl.pointerSize == 8 then 0x8000_0000_0000_0000 else 0x8000_0000
  {
    if pl.pointerSize == 8 {
      assert Pow256(8) == 0x1_0000_0000_0000_0000;
    } else {
      assert Pow256(4) == 0x1_0000_0000;
    }
  }

  lemma {:induction false} FirstPlace(table: seq<Bytes>, s: Bytes)
    ensures IndexOf(table, s).Some? ==> forall j :: 0 <= j < IndexOf(table, s).value ==> table[j] != s
    decreases table
  {
    if table != [] {
      FirstPlace(table[1..], s);
      if IndexOf(table, s).Some? {
        forall j | 0 <= j < IndexOf(table, s).value
          ensures table[j] != s
        {
          if j > 0 {
            assert table[j] == table[1..][j - 1];
          }
        }
      }
    }
  }
}
