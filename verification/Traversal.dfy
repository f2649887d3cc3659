/** Traversing a table with next while its fields are overwritten or cleared. */
module Traversal {
  import opened Wrappers

  datatype Value = Nil | Item(id: int)

  /** A key: nil, an integer, a string or anything else. */
  datatype Key = NilKey | IntKey(i: int) | Str(s: string) | Other(id: nat)

  /** A slot's key: a name, or its hash if it was buried. */
  datatype SlotKey = Name(s: string) | Tombstone(hash: int)

  datatype Next = Entry(k: Key, v: Value) | Finished | InvalidKey

  /** A table: the array part, the slots of its string keys, and the hash part
      with the snapshot of its keys that next walks. */
  datatype State = State(elements: seq<Value>, keys: seq<SlotKey>, slots: seq<Value>, hash: map<Key, Value>,
                         snapshot: Option<seq<Key>>, hint: nat)
  {
    ghost predicate Valid() {
      && |keys| == |slots|
      && (forall s :: 0 <= s < |keys| && keys[s].Tombstone? ==> slots[s] == Nil)
      && (forall s, t :: 0 <= s < t < |keys| && keys[s].Name? ==> keys[s] != keys[t])
      && (forall k :: k in hash ==> hash[k] != Nil && Hashed(k))
      && (snapshot.Some? ==>
            && (forall k :: k in hash ==> k in snapshot.value)
            && (forall j :: 0 <= j < |snapshot.value| ==> snapshot.value[j].IntKey? || snapshot.value[j].Other?)
            && (forall i, j :: 0 <= i < j < |snapshot.value| ==> snapshot.value[i] != snapshot.value[j]))
    }

    /** A key that would be in the hash part. */
    predicate Hashed(k: Key) {
      k.Other? || (k.IntKey? && !(1 <= k.i <= |elements|))
    }

    /** The traversal's positions: the array part, then slots, then snapshot. */
    function Total(): nat {
      |elements| + |slots| + if snapshot.Some? then |snapshot.value| else 0
    }

    function KeyAt(p: nat): Key
      requires p < Total() && |keys| == |slots|
    {
      if p < |elements| then IntKey(p + 1)
      else if p < |elements| + |slots| then
        (match keys[p - |elements|] case Name(s) => Str(s) case Tombstone(_) => NilKey)
      else snapshot.value[p - |elements| - |slots|]
    }

    function ValueAt(p: nat): Value
      requires p < Total()
    {
      if p < |elements| then elements[p]
      else if p < |elements| + |slots| then slots[p - |elements|]
      else if snapshot.value[p - |elements| - |slots|] in hash then hash[snapshot.value[p - |elements| - |slots|]] else Nil
    }

    /** What key k holds. */
    function At(k: Key): Value {
      if k.IntKey? && 1 <= k.i <= |elements| then elements[k.i - 1]
      else if k.Str? then
        match SlotOf(keys, Name(k.s))
        case Some(s) => if s < |slots| then slots[s] else Nil
        case None => Nil
      else if k in hash then hash[k] else Nil
    }

    /** Nothing is live from p up to q. */
    ghost predicate Dead(p: nat, q: nat) {
      forall r: nat :: p <= r < q && r < Total() ==> ValueAt(r) == Nil
    }
  }

  /** The slot of a name, and that of the first tombstone with a hash. */
  function SlotOf(keys: seq<SlotKey>, key: SlotKey): (s: Option<nat>)
    ensures s.Some? ==> s.value < |keys| && keys[s.value] == key && forall t :: 0 <= t < s.value ==> keys[t] != key
    ensures s.None? ==> key !in keys
  {
    if keys == [] then None
    else if keys[0] == key then Some(0)
    else match SlotOf(keys[1..], key)
      case None => None
      case Some(t) => Some(t + 1)
  }

  /** Where a traversal resumes after a string key. */
  function ResumeSlot(keys: seq<SlotKey>, hash: string -> int, s: string): Option<nat> {
    if SlotOf(keys, Name(s)).Some? then SlotOf(keys, Name(s)) else SlotOf(keys, Tombstone(hash(s)))
  }

  /** The table, which next's walk of the hash part changes only in the snapshot
      and the hint of where it is. */
  class Table {
    var t: State
    const hash: string -> int

    /** An empty table. */
    constructor (hash: string -> int)
      ensures t == State([], [], [], map[], None, 0) && t.Valid() && this.hash == hash
    {
      t := State([], [], [], map[], None, 0);
      this.hash := hash;
    }

    /** The first entry after key k, in the order of positions, or that the key
        is none of the table's. */
    method NextEntry(k: Key) returns (r: Next, ghost from: nat, ghost p: nat)
      requires t.Valid()
      modifies this
      ensures t.Valid() && SameEntries(old(t), t)
      ensures r.InvalidKey? <==> !Known(old(t), hash, k)
      ensures !r.InvalidKey? ==> Resumes(t, hash, k, from) && FirstAfter(t, r, from, p)
    {
      hide SlotOf, State.Dead, FirstAfter;
      from, p := 0, 0;
      var i, s := 0, 0;
      if k != NilKey {
        if k.IntKey? && 1 <= k.i <= |t.elements| {
          i := k.i;
        } else if k.Str? {
          var slot := ResumeSlot(t.keys, hash, k.s);
          if slot.None? {
            return InvalidKey, 0, 0;
          }
          i, s := |t.elements|, slot.value + 1;
        } else {
          r, from, p := NextHashKey(k);
          return;
        }
      }
      from := i + s;
      r, p := Scan(i, s);
    }

    /** The first entry from place i of the array part on, or slot s. */
    method Scan(i0: nat, s0: nat) returns (r: Next, ghost p: nat)
      requires t.Valid() && i0 <= |t.elements| && s0 <= |t.slots| && (i0 < |t.elements| ==> s0 == 0)
      modifies this
      ensures t.Valid() && SameEntries(old(t), t) && !r.InvalidKey? && FirstAfter(t, r, i0 + s0, p)
    {
      var i, s := i0, s0;
      ghost var from := i + s;
      p := from;
      while i < |t.elements|
        invariant from <= i + s && i <= |t.elements| && (i < |t.elements| ==> s == 0) && s <= |t.slots|
        invariant t == old(t) && t.Dead(from, i + s)
      {
        if t.elements[i] != Nil {
          p := i;
          return Entry(IntKey(i + 1), t.elements[i]), p;
        }
        i := i + 1;
      }
      while s < |t.slots|
        invariant from <= i + s && i == |t.elements| && s <= |t.slots| && t == old(t) && t.Dead(from, i + s)
      {
        if t.slots[s] != Nil {
          p := i + s;
          return Entry(Str(t.keys[s].s), t.slots[s]), p;
        }
        s := s + 1;
      }
      if t.hash == map[] {
        assert t.Dead(from, t.Total());
        return Finished, p;
      }
      if t.snapshot.None? {
        SnapshotKeys();
      }
      StillDead(old(t), t, from, i + s);
      r, p := NextMapKey(0, from);
    }

    /** Entries that are the same are as dead. */
    lemma StillDead(a: State, b: State, p: nat, q: nat)
      requires a.Valid() && SameEntries(a, b) && a.Dead(p, q) && (q <= |a.elements| + |a.slots| || a.snapshot == b.snapshot)
      ensures b.Dead(p, q)
    {
      forall r: nat | p <= r < q && r < b.Total()
        ensures b.ValueAt(r) == Nil
      {
        assert a.ValueAt(r) == Nil;
      }
    }

    /** Lists the hash part's keys, in any order. */
    method SnapshotKeys()
      requires t.Valid() && t.snapshot.None?
      modifies this
      ensures t.Valid() && t == old(t).(snapshot := t.snapshot, hint := 0) && t.snapshot.Some?
    {
      var keys: seq<Key>, todo := [], t.hash.Keys;
      while todo != {}
        invariant t == old(t) && todo <= t.hash.Keys
        invariant forall k :: k in t.hash ==> k in todo || k in keys
        invariant forall j :: 0 <= j < |keys| ==> keys[j] in t.hash && keys[j] !in todo
        invariant forall i, j :: 0 <= i < j < |keys| ==> keys[i] != keys[j]
        decreases |todo|
      {
        var k :| k in todo;
        todo, keys := todo - {k}, keys + [k];
      }
      t := t.(snapshot := Some(keys), hint := 0);
    }

    /** The first key of the snapshot from place j on that is still present. */
    method NextMapKey(start: nat, ghost from: nat) returns (r: Next, ghost p: nat)
      requires t.Valid() && t.snapshot.Some? && start <= |t.snapshot.value|
      requires t.Dead(from, |t.elements| + |t.slots| + start) && from <= |t.elements| + |t.slots| + start
      modifies this
      ensures t.Valid() && t == old(t).(hint := t.hint)
      ensures !r.InvalidKey? && FirstAfter(t, r, from, p)
    {
      var j, base := start, |t.elements| + |t.slots|;
      p := base + j;
      while j < |t.snapshot.value|
        invariant start <= j <= |t.snapshot.value| && t == old(t) && t.Dead(from, base + j) && p == base + j
      {
        var k := t.snapshot.value[j];
        if k in t.hash {
          t := t.(hint := j + 1);
          StillDead(old(t), t, from, p);
          return Entry(k, t.hash[k]), p;
        }
        j := j + 1;
        p := base + j;
      }
      return Finished, p;
    }

    /** Goes on after a key of the hash part, where the hint says or else where
        the snapshot has it. */
    method NextHashKey(k: Key) returns (r: Next, ghost from: nat, ghost p: nat)
      requires t.Valid() && t.Hashed(k)
      modifies this
      ensures t.Valid() && SameEntries(old(t), t)
      ensures r.InvalidKey? <==> !Known(old(t), hash, k)
      ensures !r.InvalidKey? ==> Resumes(t, hash, k, from) && FirstAfter(t, r, from, p)
    {
      from, p := 0, 0;
      if t.snapshot.None? {
        if k !in t.hash {
          return InvalidKey, 0, 0;
        }
        SnapshotKeys();
      }
      var keys := t.snapshot.value;
      if 0 < t.hint <= |keys| && keys[t.hint - 1] == k {
        from := |t.elements| + |t.slots| + t.hint;
        r, p := NextMapKey(t.hint, from);
        return;
      }
      var j := 0;
      while j < |keys|
        invariant 0 <= j <= |keys| && t.Valid() && SameEntries(old(t), t) && t.snapshot == Some(keys) && k !in keys[..j]
      {
        if keys[j] == k {
          from := |t.elements| + |t.slots| + j + 1;
          r, p := NextMapKey(j + 1, from);
          return;
        }
        j := j + 1;
      }
      return InvalidKey, 0, 0;
    }
  }

  /** The first entry from a position on, or that there is none. */
  ghost predicate FirstAfter(t: State, r: Next, from: nat, p: nat)
    requires t.Valid()
  {
    match r
    case Entry(key, v) => from <= p < t.Total() && t.KeyAt(p) == key && t.ValueAt(p) == v && v != Nil && t.Dead(from, p)
    case Finished => t.Dead(from, t.Total()) && (t.snapshot.None? ==> t.hash == map[])
    case InvalidKey => false
  }

  /** A traversal can resume after the key. */
  ghost predicate Known(t: State, hash: string -> int, k: Key) {
    match k
    case NilKey => true
    case Str(s) => ResumeSlot(t.keys, hash, s).Some?
    case _ => !t.Hashed(k) || (if t.snapshot.Some? then k in t.snapshot.value else k in t.hash)
  }

  /** The entries are the same, and so is a snapshot once there is one. */
  ghost predicate SameEntries(a: State, b: State) {
    b == a.(snapshot := b.snapshot, hint := b.hint) && (a.snapshot.Some? ==> b.snapshot == a.snapshot)
  }

  /** After key k a traversal resumes from position p. */
  ghost predicate Resumes(t: State, hash: string -> int, k: Key, p: nat) {
    match k
    case NilKey => p == 0
    case Str(s) => ResumeSlot(t.keys, hash, s).Some? && p == |t.elements| + ResumeSlot(t.keys, hash, s).value + 1
    case _ =>
      if t.Hashed(k) then
        t.snapshot.Some? && p > |t.elements| + |t.slots| && p - |t.elements| - |t.slots| - 1 < |t.snapshot.value|
        && t.snapshot.value[p - |t.elements| - |t.slots| - 1] == k
      else k.IntKey? && p == k.i
  }

  // ---------- Whole traversals ----------

  /** From a to b fields were only overwritten or cleared, the keys of nil slots
      buried, and other traversals may have taken a snapshot or moved the hint. */
  ghost predicate Cleared(a: State, b: State, hash: string -> int) {
    && |b.elements| == |a.elements| && |b.keys| == |a.keys| && |b.slots| == |a.slots|
    && (a.snapshot.Some? ==> b.snapshot == a.snapshot)
    && (forall i :: 0 <= i < |a.elements| && a.elements[i] == Nil ==> b.elements[i] == Nil)
    && (forall s :: 0 <= s < |a.slots| && a.slots[s] == Nil ==> b.slots[s] == Nil)
    && (forall s :: 0 <= s < |a.slots| && |a.slots| == |a.keys| ==> KeyStays(a.keys[s], b.keys[s], b.slots[s], hash))
    && (forall k :: k in b.hash ==> k in a.hash)
  }

  predicate KeyStays(a: SlotKey, b: SlotKey, v: Value, hash: string -> int) {
    b == a || (a.Name? && v == Nil && b == Tombstone(hash(a.s)))
  }

  /** A slot's tombstone is that of an earlier slot too. */
  predicate Mistaken(t: State, s: nat)
    requires s < |t.keys|
  {
    t.keys[s].Tombstone? && t.keys[s] in t.keys[..s]
  }

  /** After an entry the traversal resumes from the next position, whatever was
      cleared and buried since, unless the entry's own key was buried and an
      earlier slot has the same tombstone: then it resumes too early. */
  lemma ResumesNext(a: State, b: State, hash: string -> int, p: nat)
    requires a.Valid() && b.Valid() && Cleared(a, b, hash) && p < a.Total() && a.ValueAt(p) != Nil
    ensures Resumes(b, hash, a.KeyAt(p), p + 1) <==>
      !(|a.elements| <= p < |a.elements| + |a.slots| && Mistaken(b, p - |a.elements|))
    ensures Known(b, hash, a.KeyAt(p))
  {
    if |a.elements| <= p < |a.elements| + |a.slots| {
      SlotResumes(a, b, hash, p - |a.elements|);
    }
  }

  lemma SlotResumes(a: State, b: State, hash: string -> int, s: nat)
    requires a.Valid() && b.Valid() && Cleared(a, b, hash) && s < |a.slots| && a.slots[s] != Nil
    ensures a.keys[s].Name?
    ensures
      var slot := ResumeSlot(b.keys, hash, a.keys[s].s);
      slot.Some? && (slot.value == s <==> !Mistaken(b, s))
  {
    var name := a.keys[s];
    assert name.Name? && KeyStays(name, b.keys[s], b.slots[s], hash);
    if b.keys[s] == name {
      assert name in b.keys;
    } else {
      NoName(a, b, hash, s);
      assert Tombstone(hash(name.s)) in b.keys;
      var t := SlotOf(b.keys, Tombstone(hash(name.s))).value;
      if t < s {
        assert b.keys[..s][t] == b.keys[s];
      }
    }
  }

  /** A buried name is in no other slot. */
  lemma NoName(a: State, b: State, hash: string -> int, s: nat)
    requires a.Valid() && b.Valid() && Cleared(a, b, hash) && s < |a.slots| && a.keys[s].Name? && b.keys[s] != a.keys[s]
    ensures SlotOf(b.keys, a.keys[s]).None?
  {
    forall t | 0 <= t < |b.keys|
      ensures b.keys[t] != a.keys[s]
    {
      assert KeyStays(a.keys[t], b.keys[t], b.slots[t], hash);
    }
  }

  /** In state t next gives key k: the first live position from here on. */
  ghost predicate Gives(t: State, from: nat, p: nat, k: Key) {
    t.Valid() && from <= p < t.Total() && t.ValueAt(p) != Nil && t.Dead(from, p) && t.KeyAt(p) == k
  }

  /** In state t next gives nothing more. */
  ghost predicate Ends(t: State, from: nat) {
    t.Valid() && t.Dead(from, t.Total()) && (t.snapshot.None? ==> t.hash == map[])
  }

  /** A walk so far: the states in which next answered, and the positions and
      keys it gave, each the first live one after the last. */
  ghost predicate Walking(ts: seq<State>, ps: seq<nat>, ks: seq<Key>, hash: string -> int) {
    && |ts| == |ps| == |ks| && (forall j :: 0 <= j < |ps| ==> Gives(ts[j], After(ps, j), ps[j], ks[j]))
    && (forall j :: 0 <= j < |ts| - 1 ==> Progresses(ts[j], ts[j + 1], hash))
  }

  /** A whole walk, to the state in which there was nothing more. */
  ghost predicate Walk(ts: seq<State>, ps: seq<nat>, ks: seq<Key>, hash: string -> int) {
    && |ts| == |ps| + 1 && |ks| == |ps| && (forall j :: 0 <= j < |ps| ==> Gives(ts[j], After(ps, j), ps[j], ks[j]))
    && Chain(ts, hash) && Ends(ts[|ps|], After(ps, |ps|))
  }

  ghost predicate Chain(ts: seq<State>, hash: string -> int) {
    forall j :: 0 <= j < |ts| - 1 ==> ts[j].Valid() && Progresses(ts[j], ts[j + 1], hash)
  }

  function After(ps: seq<nat>, j: nat): nat
    requires j <= |ps|
  {
    if j == 0 then 0 else ps[j - 1] + 1
  }

  /** Clearing, and then a call of next. */
  ghost predicate Progresses(a: State, b: State, hash: string -> int) {
    exists c: State :: Cleared(a, c, hash) && SameEntries(c, b)
  }

  lemma DeadStep(a: State, b: State, hash: string -> int, p: nat)
    requires a.Valid() && Progresses(a, b, hash) && p < a.Total() && a.ValueAt(p) == Nil
    ensures p < b.Total() && b.ValueAt(p) == Nil
  {
  }

  lemma {:induction false} ChainDead(ts: seq<State>, hash: string -> int, j: nat, p: nat)
    requires Chain(ts, hash) && j < |ts| && p < ts[j].Total() && ts[j].ValueAt(p) == Nil
    ensures p < ts[|ts| - 1].Total() && ts[|ts| - 1].ValueAt(p) == Nil
    decreases |ts| - j
  {
    if j < |ts| - 1 {
      hide State.Valid, State.ValueAt, State.Total, Progresses;
      DeadStep(ts[j], ts[j + 1], hash, p);
      ChainDead(ts, hash, j + 1, p);
    }
  }

  lemma {:induction false} Increasing(ps: seq<nat>, i: nat, j: nat)
    requires i < j < |ps| && forall k :: 0 <= k < |ps| ==> After(ps, k) <= ps[k]
    ensures ps[i] < ps[j]
    decreases j
  {
    assert After(ps, j) <= ps[j];
    if i < j - 1 {
      Increasing(ps, i, j - 1);
    }
  }

  /** Where a position falls in a walk. */
  lemma {:induction false} Gap(ps: seq<nat>, p: nat, n: nat) returns (j: nat)
    requires n <= |ps| && p !in ps[..n]
    ensures j <= n && After(ps, j) <= p && (j == n || p < ps[j])
    decreases n
  {
    if n == 0 || ps[n - 1] < p {
      return n;
    }
    assert ps[..n][n - 1] == ps[n - 1];
    assert ps[..n - 1] == ps[..n][..n - 1];
    j := Gap(ps, p, n - 1);
  }

  /** A walk gives every position that is live at its end, in ascending order. */
  lemma PositionsVisited(ts: seq<State>, ps: seq<nat>, ks: seq<Key>, hash: string -> int)
    requires Walk(ts, ps, ks, hash)
    ensures forall p: nat :: p < ts[|ps|].Total() && ts[|ps|].ValueAt(p) != Nil ==> p in ps
    ensures forall i, j :: 0 <= i < j < |ps| ==> ps[i] < ps[j]
  {
    hide Chain, State.Valid;
    forall i, j | 0 <= i < j < |ps|
      ensures ps[i] < ps[j]
    {
      assert forall k :: 0 <= k < |ps| ==> Gives(ts[k], After(ps, k), ps[k], ks[k]);
      Increasing(ps, i, j);
    }
    forall p: nat | p !in ps && p < ts[|ps|].Total()
      ensures ts[|ps|].ValueAt(p) == Nil
    {
      Missed(ts, ps, ks, hash, p);
    }
  }

  /** A position that no call gave was dead by the end. */
  lemma Missed(ts: seq<State>, ps: seq<nat>, ks: seq<Key>, hash: string -> int, p: nat)
    requires Walk(ts, ps, ks, hash) && p !in ps && p < ts[|ps|].Total()
    ensures ts[|ps|].ValueAt(p) == Nil
  {
    hide Chain, State.Valid;
    assert ps[..|ps|] == ps;
    var j := Gap(ps, p, |ps|);
    if j < |ps| {
      assert Gives(ts[j], After(ps, j), ps[j], ks[j]);
      ChainDead(ts, hash, j, p);
    }
  }

  // ---------- Keys and positions ----------

  /** A key that holds a value is at a position. */
  lemma PlaceOf(t: State, k: Key) returns (p: nat)
    requires t.Valid() && t.At(k) != Nil && (t.snapshot.None? ==> t.hash == map[])
    ensures p < t.Total() && t.ValueAt(p) != Nil && t.KeyAt(p) == k
  {
    if k.IntKey? && 1 <= k.i <= |t.elements| {
      p := k.i - 1;
    } else if k.Str? {
      p := |t.elements| + SlotOf(t.keys, Name(k.s)).value;
    } else {
      var j :| 0 <= j < |t.snapshot.value| && t.snapshot.value[j] == k;
      p := |t.elements| + |t.slots| + j;
    }
  }

  /** A live position is that of the key there. */
  lemma KeyThere(t: State, p: nat)
    requires t.Valid() && p < t.Total() && t.ValueAt(p) != Nil
    ensures t.At(t.KeyAt(p)) == t.ValueAt(p) && t.KeyAt(p) != NilKey
  {
    if |t.elements| <= p < |t.elements| + |t.slots| {
      var s := p - |t.elements|;
      assert t.keys[s] in t.keys;
      var u := SlotOf(t.keys, t.keys[s]).value;
      assert u == s;
    }
  }

  lemma OneKeyEach(t: State, p: nat, q: nat)
    requires t.Valid() && p < q < t.Total() && t.ValueAt(p) != Nil && t.ValueAt(q) != Nil
    ensures t.KeyAt(p) != t.KeyAt(q)
  {
  }

  /** An entry that is live after a step was live before, under its key, or its
      place came with the snapshot. */
  ghost predicate WasThere(a: State, b: State, p: nat)
    requires p < b.Total() && |b.keys| == |b.slots|
  {
    && |a.elements| == |b.elements| && |a.slots| == |b.slots| == |a.keys|
    && if p < a.Total() then a.ValueAt(p) != Nil && a.KeyAt(p) == b.KeyAt(p)
       else a.snapshot.None? && p >= |a.elements| + |a.slots| && b.Hashed(b.KeyAt(p))
  }

  lemma StepBack(a: State, b: State, hash: string -> int, p: nat)
    requires a.Valid() && b.Valid() && Progresses(a, b, hash) && p < b.Total() && b.ValueAt(p) != Nil
    ensures WasThere(a, b, p)
  {
  }

  lemma {:induction false} ChainBack(ts: seq<State>, hash: string -> int, i: nat, j: nat, p: nat)
    requires Chain(ts, hash) && i <= j < |ts| && ts[j].Valid() && p < ts[j].Total() && ts[j].ValueAt(p) != Nil
    ensures ts[i].Valid() && WasThere(ts[i], ts[j], p)
    decreases j - i
  {
    if i < j {
      assert ts[i].Valid() && Progresses(ts[i], ts[i + 1], hash);
      NextValid(ts, hash, i, j);
      ChainBack(ts, hash, i + 1, j, p);
      if p < ts[i + 1].Total() {
        StepBack(ts[i], ts[i + 1], hash, p);
      } else {
        StepLengths(ts[i], ts[i + 1], hash);
      }
    }
  }

  lemma NextValid(ts: seq<State>, hash: string -> int, i: nat, j: nat)
    requires Chain(ts, hash) && i < j < |ts| && ts[j].Valid()
    ensures ts[i + 1].Valid()
  {
    if i + 1 < |ts| - 1 {
      assert ts[i + 1].Valid();
    }
  }

  lemma StepLengths(a: State, b: State, hash: string -> int)
    requires a.Valid() && Progresses(a, b, hash)
    ensures |a.elements| == |b.elements| && |a.slots| == |b.slots| && (a.snapshot.Some? ==> b.snapshot == a.snapshot)
  {
  }

  /** A key that holds a value after a step held one before. */
  lemma HeldBefore(a: State, b: State, hash: string -> int, k: Key)
    requires a.Valid() && b.Valid() && Progresses(a, b, hash) && b.At(k) != Nil
    ensures a.At(k) != Nil
  {
    if k.Str? {
      var s := SlotOf(b.keys, Name(k.s)).value;
      assert a.keys[s] == Name(k.s);
      assert Name(k.s) in a.keys;
    }
  }

  lemma {:induction false} HeldAtStart(ts: seq<State>, hash: string -> int, j: nat, k: Key)
    requires Chain(ts, hash) && j < |ts| && ts[j].Valid() && ts[j].At(k) != Nil
    ensures ts[0].At(k) != Nil
    decreases j
  {
    if j > 0 {
      assert ts[j - 1].Valid() && Progresses(ts[j - 1], ts[j], hash);
      HeldBefore(ts[j - 1], ts[j], hash, k);
      HeldAtStart(ts, hash, j - 1, k);
    }
  }

  /** What a walk visits: every key that still holds a value at its end, and so
      every one that holds a value throughout; none twice; and only keys that
      held a value at its start. */
  lemma VisitsAll(ts: seq<State>, ps: seq<nat>, ks: seq<Key>, hash: string -> int)
    requires Walk(ts, ps, ks, hash)
    ensures forall k :: ts[|ps|].At(k) != Nil ==> k in ks
    ensures forall k :: k in ks ==> ts[0].At(k) != Nil
    ensures forall i, j :: 0 <= i < j < |ks| ==> ks[i] != ks[j]
  {
    hide Chain, State.Valid, WasThere, State.At, State.KeyAt, State.ValueAt;
    PositionsVisited(ts, ps, ks, hash);
    forall k | ts[|ps|].At(k) != Nil
      ensures k in ks
    {
      VisitedKey(ts, ps, ks, hash, k);
    }
    forall k | k in ks
      ensures ts[0].At(k) != Nil
    {
      var j :| 0 <= j < |ks| && ks[j] == k;
      assert Gives(ts[j], After(ps, j), ps[j], ks[j]);
      KeyThere(ts[j], ps[j]);
      HeldAtStart(ts, hash, j, k);
    }
    forall i, j | 0 <= i < j < |ks|
      ensures ks[i] != ks[j]
    {
      NotTwice(ts, ps, ks, hash, i, j);
    }
  }

  lemma VisitedKey(ts: seq<State>, ps: seq<nat>, ks: seq<Key>, hash: string -> int, k: Key)
    requires Walk(ts, ps, ks, hash) && ts[|ps|].At(k) != Nil
    ensures k in ks
  {
    hide Chain, State.Valid, State.At, State.KeyAt, State.ValueAt;
    var p := PlaceOf(ts[|ps|], k);
    PositionsVisited(ts, ps, ks, hash);
    var j :| 0 <= j < |ps| && ps[j] == p;
    assert Gives(ts[j], After(ps, j), ps[j], ks[j]);
    ChainBack(ts, hash, j, |ps|, p);
  }

  lemma NotTwice(ts: seq<State>, ps: seq<nat>, ks: seq<Key>, hash: string -> int, i: nat, j: nat)
    requires Walk(ts, ps, ks, hash) && i < j < |ks|
    ensures ks[i] != ks[j]
  {
    hide Chain;
    PositionsVisited(ts, ps, ks, hash);
    assert Gives(ts[i], After(ps, i), ps[i], ks[i]) && Gives(ts[j], After(ps, j), ps[j], ks[j]);
    ChainBack(ts, hash, i, j, ps[j]);
    if ps[j] < ts[i].Total() {
      OneKeyEach(ts[i], ps[i], ps[j]);
    }
  }

  // ---------- Between traversals ----------

  /** The array part extended to so many places, which take their entries from the
      hash part. A snapshot that a traversal has left stays, with keys that are
      then in the array part. */
  function Extended(t: State, last: nat): State
    requires |t.elements| <= last
  {
    t.(elements := seq(last, i requires 0 <= i < last => t.At(IntKey(i + 1))),
       hash := map k | k in t.hash && !(k.IntKey? && 1 <= k.i <= last) :: t.hash[k])
  }

  /** Such a table can be traversed: its keys are where they should be, and each
      reads as before. */
  lemma ExtendedReads(t: State, last: nat)
    requires t.Valid() && |t.elements| <= last
    ensures Extended(t, last).Valid()
    ensures forall k :: Extended(t, last).At(k) == t.At(k)
  {
    var e := Extended(t, last);
    forall k
      ensures e.At(k) == t.At(k)
    {
      if k.IntKey? && 1 <= k.i <= last {
        assert e.elements[k.i - 1] == t.At(IntKey(k.i - 1 + 1));
      }
    }
  }

  // ---------- When a traversal can go on ----------

  /** A slot's hash, which burying its key does not change. */
  function Mark(k: SlotKey, hash: string -> int): int {
    match k
    case Name(s) => hash(s)
    case Tombstone(h) => h
  }

  /** No slot with a live entry has the hash of an earlier slot. */
  ghost predicate MarksApart(t: State, hash: string -> int) {
    && |t.keys| == |t.slots|
    && forall s, u :: 0 <= s < u < |t.keys| && t.slots[u] != Nil ==> Mark(t.keys[s], hash) != Mark(t.keys[u], hash)
  }

  /** The entry in slot u is live in a, and clearing has made the traversal
      mistake its tombstone for an earlier one in b. */
  ghost predicate Misleads(a: State, b: State, hash: string -> int, u: nat) {
    && b.Valid() && Cleared(a, b, hash) && u < |a.slots| && u < |b.keys| && a.slots[u] != Nil && Mistaken(b, u)
  }

  /** Exactly then does no clearing and burying make a traversal that stands on
      an entry resume too early. */
  lemma MarksApartExact(a: State, hash: string -> int)
    requires a.Valid()
    ensures MarksApart(a, hash) <==> forall b: State, u: nat :: !Misleads(a, b, hash, u)
  {
    hide State.Valid, Misleads;
    if MarksApart(a, hash) {
      forall b: State, u: nat
        ensures !Misleads(a, b, hash, u)
      {
        NotMisled(a, b, hash, u);
      }
    } else {
      SameLengths(a);
      var s: nat, u: nat :| s < u < |a.keys| && a.slots[u] != Nil && Mark(a.keys[s], hash) == Mark(a.keys[u], hash);
      BuriedMisleads(a, hash, s, u);
    }
  }

  lemma SameLengths(a: State)
    requires a.Valid()
    ensures |a.keys| == |a.slots|
  {
  }

  lemma NotMisled(a: State, b: State, hash: string -> int, u: nat)
    requires a.Valid() && MarksApart(a, hash)
    ensures !Misleads(a, b, hash, u)
  {
  }

  lemma BuriedMisleads(a: State, hash: string -> int, s: nat, u: nat)
    requires a.Valid() && s < u < |a.keys| && a.slots[u] != Nil && Mark(a.keys[s], hash) == Mark(a.keys[u], hash)
    ensures Misleads(a, BothBuried(a, hash, s, u), hash, u)
  {
    var b := BothBuried(a, hash, s, u);
    assert b.keys[..u][s] == b.keys[u];
    BuriedValid(a, hash, s, u);
  }

  lemma BuriedValid(a: State, hash: string -> int, s: nat, u: nat)
    requires a.Valid() && s < u < |a.keys|
    ensures BothBuried(a, hash, s, u).Valid() && Cleared(a, BothBuried(a, hash, s, u), hash)
  {
    var b := BothBuried(a, hash, s, u);
    assert forall j :: 0 <= j < |b.keys| ==> KeyStays(a.keys[j], b.keys[j], b.slots[j], hash);
    assert forall k :: b.Hashed(k) == a.Hashed(k);
  }

  /** Slots s and u cleared, and their keys buried. */
  function BothBuried(a: State, hash: string -> int, s: nat, u: nat): State
    requires s < u < |a.keys| && |a.keys| == |a.slots|
  {
    a.(slots := a.slots[s := Nil][u := Nil],
       keys := a.keys[s := Tombstone(Mark(a.keys[s], hash))][u := Tombstone(Mark(a.keys[u], hash))])
  }

  lemma ApartStays(a: State, b: State, c: State, hash: string -> int)
    requires a.Valid() && MarksApart(a, hash) && Cleared(a, b, hash) && SameEntries(b, c)
    ensures MarksApart(c, hash)
  {
  }

  /** What a program does between calls of next, given the keys visited: any
      overwriting and clearing of entries, any burying of keys of nil slots, and any
      other traversal. As the keys are more at each call, it may do something else
      each time. */
  ghost predicate Gentle(clear: (seq<Key>, State) -> State, hash: string -> int) {
    forall ks, t: State :: t.Valid() ==> clear(ks, t).Valid() && Cleared(t, clear(ks, t), hash)
  }

  /** Doing nothing is gentle, */
  lemma NothingIsGentle(hash: string -> int)
    ensures Gentle((ks: seq<Key>, t: State) => t, hash)
  {
  }

  /** and so is clearing every entry and burying every key. */
  function Emptied(t: State, hash: string -> int): State {
    t.(elements := seq(|t.elements|, _ => Nil), slots := seq(|t.slots|, _ => Nil), hash := map[],
       keys := seq(|t.keys|, s requires 0 <= s < |t.keys| => Tombstone(Mark(t.keys[s], hash))))
  }

  lemma EmptyingIsGentle(hash: string -> int)
    ensures Gentle((ks: seq<Key>, t: State) => Emptied(t, hash), hash)
  {
  }

  /** A whole traversal, clearing between the calls of next: it ends, visits no
      key twice and none that was not live, and all that are live at its end. */
  method Traverse(table: Table, clear: (seq<Key>, State) -> State)
    returns (ghost ts: seq<State>, ghost ps: seq<nat>, visited: seq<Key>)
    requires table.t.Valid() && MarksApart(table.t, table.hash) && Gentle(clear, table.hash)
    modifies table
    ensures table.t.Valid() && Walk(ts, ps, visited, table.hash) && ts[|ps|] == table.t
    ensures forall k :: table.t.At(k) != Nil ==> k in visited
    ensures forall k :: k in visited ==> old(table.t).At(k) != Nil
    ensures forall i, j :: 0 <= i < j < |visited| ==> visited[i] != visited[j]
  {
    hide Cleared, SameEntries, Known, Resumes, State.Valid, State.At, Gentle, Walk, Walking, Progresses, MarksApart;
    ts, ps, visited := [], [], [];
    var r;
    ghost var from, p, first := 0, 0, table.t;
    StartKnown(table.t, table.hash);
    r, from, p := table.NextEntry(NilKey);
    FromStart(first, table.t, table.hash, from);
    NoWalk(table.hash);
    while r.Entry?
      invariant table.t.Valid() && !r.InvalidKey? && FirstAfter(table.t, r, from, p) && MarksApart(table.t, table.hash)
      invariant WalkingTo(ts, ps, visited, table.hash, table.t, from) && SameEntries(first, (ts + [table.t])[0])
      decreases if table.t.snapshot.None? then 1 else 0, table.t.Total() - from
    {
      ghost var here := table.t;
      WalkOn(ts, ps, visited, table.hash, here, from, p, r.k);
      ts, ps, visited := ts + [here], ps + [p], visited + [r.k];
      table.t := clear(visited, table.t);
      GentleClears(visited, here, clear, table.hash);
      var key := r.k;
      ghost var cleared, last := table.t, p;
      Goes(here, cleared, table.hash, p, key);
      r, from, p := table.NextEntry(key);
      Went(here, cleared, table.t, table.hash, key, last, from);
      ApartStays(here, cleared, table.t, table.hash);
    }
    WalkDone(ts, ps, visited, table.hash, table.t, from, p);
    ts := ts + [table.t];
    VisitsAll(ts, ps, visited, table.hash);
    SameReads(first, ts[0]);
  }

  lemma SameReads(a: State, b: State)
    requires SameEntries(a, b)
    ensures forall k :: b.At(k) == a.At(k)
  {
  }

  /** The walk so far leads to state t, from where next goes on. */
  ghost predicate WalkingTo(ts: seq<State>, ps: seq<nat>, ks: seq<Key>, hash: string -> int, t: State, from: nat) {
    Walking(ts, ps, ks, hash) && from == After(ps, |ps|) && (|ts| > 0 ==> Progresses(ts[|ts| - 1], t, hash))
  }

  lemma NoWalk(hash: string -> int)
    ensures Walking([], [], [], hash)
  {
  }

  lemma WalkOn(ts: seq<State>, ps: seq<nat>, ks: seq<Key>, hash: string -> int, t: State, from: nat, p: nat, k: Key)
    requires WalkingTo(ts, ps, ks, hash, t, from) && Gives(t, from, p, k)
    ensures Walking(ts + [t], ps + [p], ks + [k], hash)
  {
    hide Progresses, Gives;
    var ts', ps', ks' := ts + [t], ps + [p], ks + [k];
    forall j | 0 <= j < |ps'|
      ensures Gives(ts'[j], After(ps', j), ps'[j], ks'[j])
    {
      if j < |ps| {
        assert Gives(ts[j], After(ps, j), ps[j], ks[j]);
      }
    }
    forall j | 0 <= j < |ts'| - 1
      ensures Progresses(ts'[j], ts'[j + 1], hash)
    {
      if j < |ts| - 1 {
        assert Progresses(ts[j], ts[j + 1], hash);
      }
    }
  }

  lemma WalkDone(ts: seq<State>, ps: seq<nat>, ks: seq<Key>, hash: string -> int, t: State, from: nat, p: nat)
    requires WalkingTo(ts, ps, ks, hash, t, from) && t.Valid() && FirstAfter(t, Finished, from, p)
    ensures Walk(ts + [t], ps, ks, hash) && |ts| == |ps|
  {
    hide Progresses, Gives, State.Valid, State.Dead, State.Total;
    var all := ts + [t];
    forall j | 0 <= j < |ps|
      ensures Gives(all[j], After(ps, j), ps[j], ks[j])
    {
      assert Gives(ts[j], After(ps, j), ps[j], ks[j]);
    }
    WalkingChain(ts, ps, ks, hash, t);
  }

  lemma WalkingChain(ts: seq<State>, ps: seq<nat>, ks: seq<Key>, hash: string -> int, t: State)
    requires Walking(ts, ps, ks, hash) && (|ts| > 0 ==> Progresses(ts[|ts| - 1], t, hash))
    ensures Chain(ts + [t], hash)
  {
    hide Progresses, State.Valid, State.Dead, State.Total, State.ValueAt, State.KeyAt;
    var all := ts + [t];
    forall j | 0 <= j < |all| - 1
      ensures all[j].Valid() && Progresses(all[j], all[j + 1], hash)
    {
      assert Gives(ts[j], After(ps, j), ps[j], ks[j]);
      if j < |ts| - 1 {
        assert Progresses(ts[j], ts[j + 1], hash);
      }
    }
  }

  lemma FromStart(first: State, t: State, hash: string -> int, from: nat)
    requires SameEntries(first, t) && Resumes(t, hash, NilKey, from)
    ensures from == 0 && (MarksApart(first, hash) ==> MarksApart(t, hash))
  {
  }

  lemma StartKnown(t: State, hash: string -> int)
    ensures Known(t, hash, NilKey)
  {
  }

  lemma GentleClears(ks: seq<Key>, t: State, clear: (seq<Key>, State) -> State, hash: string -> int)
    requires Gentle(clear, hash) && t.Valid()
    ensures clear(ks, t).Valid() && Cleared(t, clear(ks, t), hash)
  {
  }

  /** The key of a live entry is known after clearing, and resumes next to it. */
  lemma Goes(a: State, b: State, hash: string -> int, p: nat, k: Key)
    requires a.Valid() && b.Valid() && Cleared(a, b, hash) && MarksApart(a, hash)
    requires p < a.Total() && a.ValueAt(p) != Nil && k == a.KeyAt(p)
    ensures Known(b, hash, k) && Resumes(b, hash, k, p + 1)
  {
    ResumesNext(a, b, hash, p);
  }

  lemma Went(a: State, b: State, c: State, hash: string -> int, k: Key, p: nat, from: nat)
    requires a.Valid() && b.Valid() && c.Valid() && Cleared(a, b, hash) && SameEntries(b, c)
    requires Resumes(b, hash, k, p + 1) && Resumes(c, hash, k, from)
    ensures from == p + 1 && Progresses(a, c, hash)
    ensures a.Total() <= c.Total() && (a.snapshot.Some? ==> c.snapshot.Some? && a.Total() == c.Total())
    ensures a.snapshot.None? && c.snapshot.None? ==> a.Total() == c.Total()
  {
  }

  lemma ResumesOnce(a: State, b: State, hash: string -> int, k: Key, p: nat, q: nat)
    requires a.Valid() && b.Valid() && SameEntries(a, b) && Resumes(a, hash, k, p) && Resumes(b, hash, k, q)
    ensures p == q
  {
  }
}
