/** A table's array and hash parts, as one map; and its length, a border. */
module Tables {
  import opened Wrappers
  import opened Int64

  datatype Value = Nil | Item(id: int)

  /** A key. A float is known by its bits and the integer it equals, if any;
      string keys live in a table's shape. */
  datatype Key = NilKey | NaN | IntKey(i: int64) | FloatKey(bits: int, whole: Option<int64>) | ObjectKey(id: nat)

  /** The key that a key is stored under. */
  function Normalise(k: Key): Key {
    if k.FloatKey? && k.whole.Some? then IntKey(k.whole.value) else k
  }

  /** The integer that a key equals, if any. */
  function WholeOf(k: Key): Option<int64> {
    match k
    case IntKey(i) => Some(i)
    case FloatKey(_, whole) => whole
    case _ => None
  }

  /** Keys are one key if they are the same or equal the same integer. */
  lemma SameKey(k: Key, k': Key)
    ensures Normalise(k) == Normalise(k') <==> k == k' || (WholeOf(k).Some? && WholeOf(k) == WholeOf(k'))
  {
  }

  datatype KeyError = IndexIsNil | IndexIsNaN

  function Max(a: int, b: int): int {
    if a > b then a else b
  }

  function Live(elements: seq<Value>): nat {
    if elements == [] then 0 else Live(elements[..|elements| - 1]) + (if elements[|elements| - 1] == Nil then 0 else 1)
  }

  /** The integer keys of the hash part up to key. */
  function IntKeys(hash: map<Key, Value>, key: int): set<Key> {
    set k | k in hash && k.IntKey? && k.i <= key
  }

  function UpTo(keys: set<Key>, key: int): set<Key> {
    set k | k in keys && k.IntKey? && k.i <= key
  }

  /** How many live entries have integer keys up to key, the array's included. */
  function Occupancy(elements: seq<Value>, hash: map<Key, Value>, key: int): nat {
    Live(elements) + |IntKeys(hash, key)|
  }

  function Nils(n: nat): (r: seq<Value>)
    ensures |r| == n && forall i :: 0 <= i < n ==> r[i] == Nil
  {
    seq(n, _ => Nil)
  }

  /** What the integer key i holds. */
  function HeldAt(elements: seq<Value>, hash: map<Key, Value>, i: int): Value {
    if 1 <= i <= |elements| then elements[i - 1]
    else if 0 - TWO63 <= i < TWO63 && IntKey(i) in hash then hash[IntKey(i)] else Nil
  }

  class Table {
    var elements: seq<Value>
    var hash: map<Key, Value>

    /** An empty table. */
    constructor ()
      ensures Valid() && elements == [] && hash == map[] && forall k :: At(k) == Nil
    {
      elements, hash := [], map[];
    }

    /** The hash part holds values, under keys outside the array part. */
    ghost predicate Valid()
      reads this
    {
      && (forall k :: k in hash ==> hash[k] != Nil && Normalise(k) == k && !k.NilKey? && !k.NaN?)
      && (forall k :: k in hash && k.IntKey? ==> !(1 <= k.i <= |elements|))
    }

    /** What key k holds. */
    function At(k: Key): Value
      reads this
    {
      var k := Normalise(k);
      if k.IntKey? && 1 <= k.i <= |elements| then elements[k.i - 1]
      else if k in hash then hash[k] else Nil
    }

    /** A float that equals an integer reads what the integer reads. */
    lemma FloatReads(bits: int, i: int64)
      ensures At(FloatKey(bits, Some(i))) == At(IntKey(i))
    {
    }

    /** Reading an integer is reading its key. */
    lemma IntReads(i: int64)
      ensures AtInt(i) == At(IntKey(i))
    {
    }

    function AtInt(i: int): Value
      reads this
    {
      HeldAt(elements, hash, i)
    }

    /** Everything reads as it did. */
    twostate predicate SameReads()
      reads this
    {
      forall k :: At(k) == old(At(k))
    }

    /** One key reads as v, and everything else as it did. */
    twostate predicate Updated(key: Key, v: Value)
      reads this
    {
      forall k :: At(k) == if Normalise(k) == Normalise(key) then v else old(At(k))
    }

    /** Grows the array part, which takes its entries from the hash part. */
    method ExtendArray(last: nat)
      requires Valid() && |elements| <= last
      modifies this
      ensures Valid() && |elements| == last && SameReads()
    {
      ghost var n, was := |elements|, hash;
      elements := elements + Nils(last - |elements|);
      ghost var grown := elements;
      var todo := hash.Keys;
      while todo != {}
        invariant |elements| == last && todo <= was.Keys
        invariant forall k :: k in hash <==> k in was && (k in todo || !Within(k, last))
        invariant forall k :: k in hash ==> hash[k] == was[k]
        invariant forall i :: 0 <= i < last ==> elements[i] == Filled(grown, was, todo, i)
        decreases |todo|
      {
        var k :| k in todo;
        todo := todo - {k};
        if Within(k, last) {
          elements := elements[k.i - 1 := hash[k]];
          hash := hash - {k};
        }
      }
    }

    // ---------- Where entries go ----------

    /** Makes room in the array part for key, if it would be half full: it grows
        to twice what it will hold, or just to key. */
    method MaybeResizeArray(key: int64) returns (resized: bool)
      requires Valid() && key > |elements|
      modifies this
      ensures Valid() && SameReads()
      ensures
        var occupancy := Occupancy(old(elements), old(hash), key);
        && resized == (occupancy >= key / 2)
        && (resized ==> |elements| == Max(occupancy * 2, key) && key <= |elements| <= 2 * occupancy + 1)
        && (!resized ==> elements == old(elements) && hash == old(hash))
    {
      var live := CountLive();
      var keyed := CountKeys(key);
      var occupancy := live + keyed;
      if occupancy >= key / 2 {
        ExtendArray(Max(occupancy * 2, key));
        return true;
      }
      return false;
    }

    method CountKeys(key: int) returns (n: nat)
      ensures n == |IntKeys(hash, key)|
    {
      n := 0;
      var todo: set<Key>, seen: set<Key> := hash.Keys, {};
      while todo != {}
        invariant todo + seen == hash.Keys && todo !! seen && n == |UpTo(seen, key)|
        decreases |todo|
      {
        var k :| k in todo;
        ghost var before := UpTo(seen, key);
        todo, seen := todo - {k}, seen + {k};
        assert UpTo(seen, key) == if k.IntKey? && k.i <= key then before + {k} else before;
        if k.IntKey? && k.i <= key {
          n := n + 1;
        }
      }
      assert UpTo(seen, key) == IntKeys(hash, key);
    }

    method CountLive() returns (n: nat)
      ensures n == Live(elements)
    {
      n := 0;
      var i := 0;
      while i < |elements|
        invariant 0 <= i <= |elements| && n == Live(elements[..i])
      {
        assert elements[..i + 1][..i] == elements[..i];
        if elements[i] != Nil {
          n := n + 1;
        }
        i := i + 1;
      }
      assert elements[..i] == elements;
    }

    method PutAtInt(k: int64, v: Value)
      requires Valid()
      modifies this
      ensures Valid() && Updated(IntKey(k), v)
    {
      if 0 < k <= |elements| {
        elements := elements[k - 1 := v];
        return;
      }
      var resized := false;
      if k > 0 && v != Nil {
        resized := MaybeResizeArray(k);
      }
      if resized {
        elements := elements[k - 1 := v];
      } else if v == Nil {
        hash := hash - {IntKey(k)};
      } else {
        hash := hash[IntKey(k) := v];
      }
    }

    /** Sets a key, other than a string; nil and NaN are errors. */
    method Put(k: Key, v: Value) returns (error: Option<KeyError>)
      requires Valid()
      modifies this
      ensures Valid()
      ensures error == if k.NilKey? then Some(IndexIsNil) else if k.NaN? then Some(IndexIsNaN) else None
      ensures if error.None? then Updated(k, v) else elements == old(elements) && hash == old(hash)
      ensures error.None? ==> At(k) == v && (WholeOf(k).Some? ==> At(IntKey(WholeOf(k).value)) == v)
      ensures error.None? ==>
        forall other :: other != k && (WholeOf(other).Some? ==> WholeOf(other) != WholeOf(k)) ==> At(other) == old(At(other))
    {
      if k.NilKey? {
        return Some(IndexIsNil);
      }
      var k := Normalise(k);
      if k.IntKey? {
        PutAtInt(k.i, v);
        return None;
      } else if k.NaN? {
        return Some(IndexIsNaN);
      }
      if v == Nil {
        hash := hash - {k};
      } else {
        hash := hash[k := v];
      }
      return None;
    }

    /** Stores at a key that holds a value already. */
    method TryPut(k: Key, v: Value) returns (done: bool)
      requires Valid()
      modifies this
      ensures Valid() && done == (old(At(k)) != Nil)
      ensures if done then Updated(k, v) else elements == old(elements) && hash == old(hash)
      ensures |elements| == |old(elements)| && hash.Keys <= old(hash.Keys)
    {
      if k.NilKey? {
        return false;
      }
      var k := Normalise(k);
      if k.IntKey? && 0 < k.i <= |elements| && elements[k.i - 1] != Nil {
        elements := elements[k.i - 1 := v];
        return true;
      } else if k.NaN? {
        return false;
      }
      if k in hash {
        hash := if v == Nil then hash - {k} else hash[k := v];
        return true;
      }
      return false;
    }

    // ---------- Length ----------

    /** n is a border: its key holds a value, unless it is 0, and the next does
        not. */
    ghost predicate Border(n: int)
      reads this
    {
      0 <= n && (n == 0 || AtInt(n) != Nil) && AtInt(n + 1) == Nil
    }

    /** The length of a table without a metamethod: a border, if and only if the
        search past the array part is not led astray. */
    method Length() returns (n: int64)
      requires Valid() && |elements| < MAX_ELEMENTS
      ensures Border(n) <==> (InArray(elements) || Steady(elements, hash, |elements|))
      ensures !InArray(elements) && hash != map[] ==>
        match Doubled(elements, hash, |elements|, |elements| + 1)
        case None => true
        case Some((i, j)) => n == Found(elements, hash, i, j)
    {
      hide Steady, Found, Doubled;
      var j := |elements|;
      if j > 0 && elements[j - 1] == Nil {
        n := BorderInArray();
        return n;
      } else if hash == map[] {
        SteadyWithout(elements, hash, j);
        return j;
      }
      n := UnboundSearch(j);
    }

    /** The bisection of the array part: its positions are too small to wrap. */
    method BorderInArray() returns (n: int64)
      requires Valid() && InArray(elements) && |elements| < MAX_ELEMENTS
      ensures Border(n) && n < |elements|
    {
      var i, j := 0, |elements|;
      while j - i > 1
        invariant 0 <= i < j <= |elements| && elements[j - 1] == Nil && (i > 0 ==> elements[i - 1] != Nil)
      {
        var m := (i + j) / 2;
        if elements[m - 1] == Nil {
          j := m;
        } else {
          i := m;
        }
      }
      return i;
    }

    /** Doubles from last on, where that is 0 or holds a value, and bisects: what
        it finds is a border if and only if no sum wraps, or none that matters. */
    method UnboundSearch(last: nat) returns (n: int64)
      requires Valid() && |elements| < MAX_ELEMENTS && last < MAX_ELEMENTS && (last == 0 || AtInt(last) != Nil)
      ensures match Doubled(elements, hash, last, last + 1)
        case None => true
        case Some((i, j)) => n == Found(elements, hash, i, j)
      ensures Border(n) <==> Steady(elements, hash, last)
    {
      hide Wrap, Found, Calm;
      var i: int64, j: int64 := last, last + 1;
      while AtInt(j) != Nil
        invariant 0 <= i < j && (i == 0 || AtInt(i) != Nil)
        invariant Doubled(elements, hash, i, j) == Doubled(elements, hash, last, last + 1)
        decreases TWO63 - j
      {
        i := j;
        j := Wrap(j * 2);
        WrapDouble(i);
        if j < 0 {
          n := LinearSearch();
          return n;
        }
      }
      n := Bisect(i, j);
    }

    /** The bisection, with sums and differences as they wrap. */
    method Bisect(i0: int64, j0: int64) returns (n: int64)
      requires Valid() && 0 <= i0 < j0 && AtInt(j0) == Nil && (i0 == 0 || AtInt(i0) != Nil)
      ensures n == Found(elements, hash, i0, j0)
      ensures Border(n) <==> Calm(elements, hash, i0, j0)
    {
      hide Wrap, TruncDiv, Calm, HeldAt, Doubled, Steady, Table.Border;
      var i: int64, j: int64 := i0, j0;
      while Wrap(j - i) > 1
        invariant 0 <= i < j || (Wrap(j - i) <= 1 && i == Found(elements, hash, i0, j0))
        invariant 0 <= i < j ==> Stop(elements, hash, i, j) == Stop(elements, hash, i0, j0)
        decreases if 0 <= i < j then j - i else 0
      {
        WrapSum(i, j);
        var m := TruncDiv(Wrap(i + j), 2);
        if AtInt(m) == Nil {
          j := m;
        } else {
          i := m;
        }
      }
      if 0 <= i < j {
        WrapSum(i, j);
      }
      BorderExact(i0, j0);
      return i;
    }

    lemma BorderExact(i: int64, j: int64)
      requires 0 <= i < j && AtInt(j) == Nil && (i == 0 || AtInt(i) != Nil)
      ensures Border(Found(elements, hash, i, j)) <==> Calm(elements, hash, i, j)
    {
      hide Calm, Found, HeldAt;
      FoundExact(elements, hash, i, j);
    }

    method LinearSearch() returns (n: nat)
      requires Valid() && |elements| < TWO63
      ensures Border(n) && n < TWO63
    {
      var i := 1;
      while AtInt(i) != Nil
        invariant 1 <= i <= TWO63 && (i == 1 || AtInt(i - 1) != Nil)
        decreases TWO63 - i
      {
        i := i + 1;
      }
      return i - 1;
    }
  }

  // ---------- Searching for a border ----------

  /** No Go slice of values is longer. */
  const MAX_ELEMENTS := 0x4000_0000_0000_0000

  predicate InArray(elements: seq<Value>) {
    |elements| > 0 && elements[|elements| - 1] == Nil
  }

  /** Where doubling from j on finds a key without a value, and the place before,
      or none before positions wrap. */
  function Doubled(elements: seq<Value>, hash: map<Key, Value>, i: int, j: int): (r: Option<(int, int)>)
    requires 0 <= i < j < TWO63
    ensures r.Some? ==> 0 <= r.value.0 < r.value.1 < TWO63
    ensures r.Some? ==> HeldAt(elements, hash, r.value.1) == Nil
    ensures r.Some? && (i == 0 || HeldAt(elements, hash, i) != Nil) ==> r.value.0 == 0 || HeldAt(elements, hash, r.value.0) != Nil
    decreases TWO63 - j
  {
    if HeldAt(elements, hash, j) == Nil then Some((i, j))
    else if 2 * j >= TWO63 then None
    else Doubled(elements, hash, j, 2 * j)
  }

  /** The sum of two places is past the largest integer. */
  predicate SumWraps(i: int, j: int) {
    j - i > 1 && i + j >= TWO63
  }

  /** Where bisection from i and j stops: at neighbours, or where a sum wraps. */
  function Stop(elements: seq<Value>, hash: map<Key, Value>, i: int, j: int): (r: (int, int))
    requires 0 <= i < j < TWO63
    ensures i <= r.0 < r.1 <= j && (r.1 - r.0 == 1 || SumWraps(r.0, r.1))
    ensures HeldAt(elements, hash, j) == Nil ==> HeldAt(elements, hash, r.1) == Nil
    ensures (i == 0 || HeldAt(elements, hash, i) != Nil) ==> r.0 == 0 || HeldAt(elements, hash, r.0) != Nil
    decreases j - i
  {
    if j - i <= 1 || SumWraps(i, j) then (i, j)
    else
      var m := (i + j) / 2;
      if HeldAt(elements, hash, m) == Nil then Stop(elements, hash, i, m) else Stop(elements, hash, m, j)
  }

  /** The negative place that a wrapped sum gives. */
  function WrappedMiddle(i: int, j: int): int {
    0 - (TWO64 - i - j) / 2
  }

  /** What bisection from i and j finds: after a wrapped sum, the place it had or
      the negative one. */
  function Found(elements: seq<Value>, hash: map<Key, Value>, i: int, j: int): int
    requires 0 <= i < j < TWO63
  {
    var (a, b) := Stop(elements, hash, i, j);
    if SumWraps(a, b) && HeldAt(elements, hash, WrappedMiddle(a, b)) != Nil then WrappedMiddle(a, b) else a
  }

  /** Bisection from i and j wraps no sum, or does where the key after the lower
      place, and the negative key that it then looks at, hold nothing. */
  predicate Calm(elements: seq<Value>, hash: map<Key, Value>, i: int, j: int)
    requires 0 <= i < j < TWO63
  {
    var (a, b) := Stop(elements, hash, i, j);
    SumWraps(a, b) ==> HeldAt(elements, hash, WrappedMiddle(a, b)) == Nil && HeldAt(elements, hash, a + 1) == Nil
  }

  /** Just then it finds a border. */
  lemma FoundExact(elements: seq<Value>, hash: map<Key, Value>, i: int, j: int)
    requires 0 <= i < j < TWO63 && HeldAt(elements, hash, j) == Nil && (i == 0 || HeldAt(elements, hash, i) != Nil)
    ensures
      var n := Found(elements, hash, i, j);
      (0 <= n && (n == 0 || HeldAt(elements, hash, n) != Nil) && HeldAt(elements, hash, n + 1) == Nil) <==> Calm(elements, hash, i, j)
  {
  }

  /** The search from last on is not led astray. */
  predicate Steady(elements: seq<Value>, hash: map<Key, Value>, last: int)
    requires 0 <= last < MAX_ELEMENTS
  {
    match Doubled(elements, hash, last, last + 1)
    case None => true
    case Some((i, j)) => Calm(elements, hash, i, j)
  }

  /** So it is where no key from 2^61 on holds a value. */
  lemma SteadyBelow(elements: seq<Value>, hash: map<Key, Value>, last: int)
    requires 0 <= last < LARGE && |elements| < LARGE
    requires forall i :: i >= LARGE ==> HeldAt(elements, hash, i) == Nil
    ensures Steady(elements, hash, last)
  {
    DoubledBelow(elements, hash, last, last + 1);
    var r := Doubled(elements, hash, last, last + 1);
    if r.Some? {
      StopBelow(elements, hash, r.value.0, r.value.1);
    }
  }

  const LARGE := 0x2000_0000_0000_0000

  lemma {:induction false} DoubledBelow(elements: seq<Value>, hash: map<Key, Value>, i: int, j: int)
    requires 0 <= i < LARGE && i < j <= 2 * LARGE && (j == i + 1 || j == 2 * i)
    requires forall i :: i >= LARGE ==> HeldAt(elements, hash, i) == Nil
    ensures var r := Doubled(elements, hash, i, j); r.Some? && r.value.0 < LARGE && r.value.1 <= 2 * LARGE
    decreases 2 * LARGE - j
  {
    if HeldAt(elements, hash, j) != Nil {
      DoubledBelow(elements, hash, j, 2 * j);
    }
  }

  lemma {:induction false} StopBelow(elements: seq<Value>, hash: map<Key, Value>, i: int, j: int)
    requires 0 <= i < j <= 2 * LARGE && i < LARGE
    requires forall i :: i >= LARGE ==> HeldAt(elements, hash, i) == Nil
    ensures var (a, b) := Stop(elements, hash, i, j); !SumWraps(a, b)
    decreases j - i
  {
    if j - i > 1 {
      var m := (i + j) / 2;
      if HeldAt(elements, hash, m) == Nil {
        StopBelow(elements, hash, i, m);
      } else {
        StopBelow(elements, hash, m, j);
      }
    }
  }

  lemma SteadyWithout(elements: seq<Value>, hash: map<Key, Value>, last: int)
    requires |elements| == last < MAX_ELEMENTS && hash == map[]
    ensures Steady(elements, hash, last)
  {
  }

  lemma WrapDouble(j: int64)
    requires j > 0
    ensures Wrap(j * 2) == if 2 * j < TWO63 then 2 * j else 2 * j - TWO64
    ensures 2 * j >= TWO63 ==> Wrap(j * 2) < 0
  {
  }

  /** The sum of two places in Go, halved, and the difference after a wrap. */
  lemma WrapSum(i: int64, j: int64)
    requires 0 <= i < j
    ensures Wrap(j - i) == j - i
    ensures i + j < TWO63 ==> TruncDiv(Wrap(i + j), 2) == (i + j) / 2
    ensures i + j >= TWO63 ==> TruncDiv(Wrap(i + j), 2) == WrappedMiddle(i, j)
    ensures SumWraps(i, j) ==>
      Wrap(WrappedMiddle(i, j) - i) <= 1 && Wrap(j - WrappedMiddle(i, j)) <= 1 && WrappedMiddle(i, j) < 0
  {
  }

  /** An integer key of the array part. */
  predicate Within(k: Key, last: int) {
    k.IntKey? && 1 <= k.i <= last
  }

  /** What a slot of the array part holds once the keys not left to do have been
      moved. */
  ghost function Filled(grown: seq<Value>, was: map<Key, Value>, todo: set<Key>, i: int): Value
    requires 0 <= i < |grown|
  {
    if i + 1 < TWO63 && IntKey(i + 1) in was && IntKey(i + 1) !in todo then was[IntKey(i + 1)] else grown[i]
  }
}
