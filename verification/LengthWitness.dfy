/** A table whose length is no border: positions wrap on the way to it. */
module LengthWitness {
  import opened Wrappers
  import opened Int64
  import opened Tables

  const TOP: int64 := 0x3000_0000_0000_0000

  /** The keys that lead doubling from 2 to the top, 3 * 2^60. */
  function Rung(k: nat): int {
    3 * Pow2(k)
  }

  lemma RungFacts(k: nat)
    requires k <= 60
    ensures 3 <= Rung(k) <= TOP && Rung(60) == TOP && Rung(0) == 3
    ensures k < 60 ==> Rung(k + 1) == 2 * Rung(k) <= TOP
  {
    Pow2Constants();
    Pow2Add(60, 3);
    assert Pow2(3) == 8;
    Pow2Monotone(k, 60);
    if k < 60 {
      Pow2Monotone(k + 1, 60);
    }
  }

  /** Those keys hold values, and so does the one after the top; no key past it
      does, and no negative one. */
  ghost predicate Ladder(hash: map<Key, Value>) {
    && (forall k: nat :: k <= 60 ==> HoldsAt(hash, Rung(k)))
    && HoldsAt(hash, TOP + 1)
    && (forall key :: key in hash ==> key.IntKey? && 3 <= key.i <= TOP + 1 && hash[key] == Item(0))
  }

  predicate HoldsAt(hash: map<Key, Value>, i: int) {
    -TWO63 <= i < TWO63 && IntKey(i) in hash
  }

  function Keys(): map<Key, Value> {
    map key | key in KeySet() :: Item(0)
  }

  function KeySet(): set<Key> {
    set k: nat | k <= 61 :: IntKey(KeyAt(k))
  }

  function KeyAt(k: nat): int64
    requires k <= 61
  {
    if k == 61 then TOP + 1 else RungFacts(k); Rung(k)
  }

  lemma KeysLadder()
    ensures Ladder(Keys())
  {
    hide Rung;
    forall k: nat | k <= 60
      ensures HoldsAt(Keys(), Rung(k))
    {
      RungFacts(k);
      assert IntKey(KeyAt(k)) in KeySet();
    }
    assert IntKey(KeyAt(61)) in KeySet();
    forall key | key in Keys()
      ensures key.IntKey? && 3 <= key.i <= TOP + 1
    {
      var k: nat :| k <= 61 && key == IntKey(KeyAt(k));
      if k <= 60 {
        RungFacts(k);
      }
    }
  }

  /** Doubling goes up the ladder. */
  lemma {:induction false} Climbs(elements: seq<Value>, hash: map<Key, Value>, i: int, k: nat)
    requires Ladder(hash) && |elements| == 2 && k <= 60 && 0 <= i < Rung(k) <= TOP
    ensures Doubled(elements, hash, i, Rung(k)) == Some((TOP, 2 * TOP))
    decreases 60 - k
  {
    hide Rung, Doubled;
    RungFacts(k);
    assert HoldsAt(hash, Rung(k));
    DoubledOnce(elements, hash, i, Rung(k));
    if k < 60 {
      RungFacts(k + 1);
      Climbs(elements, hash, Rung(k), k + 1);
    } else {
      DoubledEnds(elements, hash, TOP, 2 * TOP);
    }
  }

  lemma DoubledOnce(elements: seq<Value>, hash: map<Key, Value>, i: int, j: int)
    requires Ladder(hash) && |elements| == 2 && 0 <= i < j <= TOP && 3 <= j && HoldsAt(hash, j)
    ensures Doubled(elements, hash, i, j) == Doubled(elements, hash, j, 2 * j)
  {
  }

  lemma DoubledEnds(elements: seq<Value>, hash: map<Key, Value>, i: int, j: int)
    requires Ladder(hash) && |elements| == 2 && 0 <= i < j < TWO63 && j > TOP + 1
    ensures Doubled(elements, hash, i, j) == Some((i, j))
  {
  }

  /** The table that has them, and values at 1 and 2, has the length 3 * 2^60,
      though the next key holds a value. */
  method LengthMisses() returns (t: Table, n: int64)
    ensures t.Valid() && n == TOP && t.AtInt(n + 1) != Nil && !t.Border(n)
  {
    hide Rung, Doubled;
    t := new Table();
    KeysLadder();
    t.elements, t.hash := [Item(0), Item(0)], Keys();
    RungFacts(0);
    Climbs(t.elements, t.hash, 2, 0);
    assert HoldsAt(t.hash, TOP + 1);
    n := t.Length();
  }
}
