/** Hidden classes: shared shapes that never change, private dictionaries that
    change in place, and the tables laid out by them. */
module Shapes {
  import opened Wrappers

  datatype Value = Nil | Number(n: int) | Text(s: string) | TableRef(id: nat) | Function(id: nat)

  /** A shape's key: a name, or what is left of one that was buried. */
  datatype Key = Name(s: string) | Tombstone(hash: int)

  const MAX_SHARED_SHAPE_KEYS := 32
  const MAX_SHAPE_CHILDREN := 64
  const MAX_SHARED_KEY_LEN := 40
  const MIN_COMPACT_SLOTS := 8

  datatype Shape = Shape(slots: map<string, nat>, keys: seq<Key>, next: map<string, nat>, dict: bool)
  {
    /** Slots and keys are inverse; only a dictionary buries keys or has no
        children. */
    ghost predicate Valid() {
      && (forall k :: k in slots ==> slots[k] < |keys| && keys[slots[k]] == Name(k))
      && (forall i :: 0 <= i < |keys| && keys[i].Name? ==> keys[i].s in slots && slots[keys[i].s] == i)
      && (!dict ==> forall i :: 0 <= i < |keys| ==> keys[i].Name?)
      && (dict ==> next == map[])
    }
  }

  /** A table's string keys: site is the instruction that made the table,
      flags the events it is known to lack, dead how many nil slots a
      dictionary has counted, and buried how many a collection buried. */
  datatype Table = Table(shape: Option<nat>, slots: seq<Value>, meta: Option<nat>, site: Option<nat>,
                         flags: set<nat>, dead: int, buried: int)

  type ShapeMap = map<nat, Shape>
  type TableMap = map<nat, Table>

  /** Shapes are sound, and children extend their parents by one key. */
  ghost predicate ShapesValid(shapes: ShapeMap) {
    && (forall s :: s in shapes ==> shapes[s].Valid())
    && (forall s, k :: s in shapes && k in shapes[s].next ==> ChildValid(shapes, s, k))
  }

  ghost predicate ChildValid(shapes: ShapeMap, s: nat, k: string)
    requires s in shapes && k in shapes[s].next
  {
    var c := shapes[s].next[k];
    c in shapes && !shapes[c].dict && shapes[c].keys == shapes[s].keys + [Name(k)]
  }

  /** From then to now shared shapes have not changed, and dictionaries have at
      most gained keys, in new slots. */
  ghost predicate Evolves(was: ShapeMap, now: ShapeMap) {
    forall s :: s in was ==> s in now && ShapeEvolves(was[s], now[s])
  }

  ghost predicate ShapeEvolves(was: Shape, now: Shape) {
    && now.dict == was.dict && was.keys <= now.keys
    && (forall k :: k in was.slots ==> k in now.slots && now.slots[k] == was.slots[k])
    && (!was.dict ==> now.slots == was.slots && now.keys == was.keys)
  }

  predicate SameKeys(a: Shape, b: Shape) {
    a.keys == b.keys && a.slots == b.slots && a.dict == b.dict
  }

  lemma EvolvesReflexive(a: ShapeMap)
    ensures Evolves(a, a)
  {
  }

  lemma EvolvesTransitive(a: ShapeMap, b: ShapeMap, c: ShapeMap)
    requires Evolves(a, b) && Evolves(b, c)
    ensures Evolves(a, c)
  {
  }

  // ---------- Tables ----------

  /** table.atString. */
  function AtString(shapes: ShapeMap, t: Table, k: string): Value {
    if t.shape.Some? && t.shape.value in shapes && k in shapes[t.shape.value].slots
       && shapes[t.shape.value].slots[k] < |t.slots|
    then t.slots[shapes[t.shape.value].slots[k]] else Nil
  }

  function NilCount(slots: seq<Value>): nat {
    if slots == [] then 0 else NilCount(slots[..|slots| - 1]) + (if slots[|slots| - 1] == Nil then 1 else 0)
  }

  /** A table has a slot for each key of its shape, none in a buried key's
      slot, and at least as many nil slots as a dictionary counts. */
  ghost predicate TableValid(shapes: ShapeMap, t: Table) {
    match t.shape
    case None => t.slots == [] && t.dead == 0
    case Some(s) =>
      && s in shapes && |t.slots| == |shapes[s].keys|
      && (forall i :: 0 <= i < |t.slots| && shapes[s].keys[i].Tombstone? ==> t.slots[i] == Nil)
      && (if shapes[s].dict then t.dead <= NilCount(t.slots) else t.dead == 0)
  }

  ghost predicate TablesValid(shapes: ShapeMap, tables: TableMap) {
    && (forall t :: t in tables ==> TableValid(shapes, tables[t]))
    && (forall t, u :: t in tables && u in tables && t != u ==> Unshared(shapes, tables[t], tables[u]))
  }

  /** Two tables do not have the same dictionary. */
  ghost predicate Unshared(shapes: ShapeMap, t: Table, u: Table) {
    t.shape.Some? && t.shape == u.shape && t.shape.value in shapes ==> !shapes[t.shape.value].dict
  }

  lemma {:induction false} NilCountAppend(slots: seq<Value>, v: Value)
    ensures NilCount(slots + [v]) == NilCount(slots) + (if v == Nil then 1 else 0)
  {
  }

  lemma {:induction false} NilCountUpdate(slots: seq<Value>, i: nat, v: Value)
    requires i < |slots|
    ensures NilCount(slots[i := v]) ==
            NilCount(slots) - (if slots[i] == Nil then 1 else 0) + (if v == Nil then 1 else 0)
  {
    var n := |slots| - 1;
    if i < n {
      NilCountUpdate(slots[..n], i, v);
      assert slots[i := v][..n] == slots[..n][i := v];
    } else {
      assert slots[i := v][..n] == slots[..n];
    }
  }

  /** Storing in a slot changes what its key reads, and nothing else. */
  lemma StoredReads(shapes: ShapeMap, t: Table, key: string, v: Value, dead: int)
    requires ShapesValid(shapes) && TableValid(shapes, t)
    requires t.shape.Some? && key in shapes[t.shape.value].slots
    requires var d := shapes[t.shape.value]; var was := t.slots[d.slots[key]];
      dead == t.dead + (if d.dict && was == Nil && v != Nil then 0 - 1 else if d.dict && was != Nil && v == Nil then 1 else 0)
    ensures
      var stored := t.(slots := t.slots[shapes[t.shape.value].slots[key] := v], dead := dead);
      && TableValid(shapes, stored)
      && forall k :: AtString(shapes, stored, k) == if k == key then v else AtString(shapes, t, k)
  {
    var d := shapes[t.shape.value];
    assert d.Valid();
    NilCountUpdate(t.slots, d.slots[key], v);
  }

  /** So does appending a slot, where the shape has the key last. */
  lemma AppendedReads(was: ShapeMap, now: ShapeMap, t: Table, r: nat, key: string, v: Value)
    requires ShapesValid(was) && ShapesValid(now) && TableValid(was, t) && r in now && v != Nil
    requires now[r].keys == (if t.shape.Some? then was[t.shape.value].keys else []) + [Name(key)]
    requires t.shape.Some? ==> key !in was[t.shape.value].slots && (was[t.shape.value].dict ==> now[r].dict)
    ensures
      var grown := t.(shape := Some(r), slots := t.slots + [v]);
      && TableValid(now, grown)
      && forall k :: AtString(now, grown, k) == if k == key then v else AtString(was, t, k)
  {
    var grown := t.(shape := Some(r), slots := t.slots + [v]);
    assert now[r].Valid();
    NilCountAppend(t.slots, v);
    if t.shape.Some? {
      assert was[t.shape.value].Valid();
    }
    assert now[r].keys[|t.slots|] == Name(key);
    forall k
      ensures AtString(now, grown, k) == if k == key then v else AtString(was, t, k)
    {
      if k != key {
        AppendedSlot(was, now, t, r, key, k);
      }
    }
  }

  lemma AppendedSlot(was: ShapeMap, now: ShapeMap, t: Table, r: nat, key: string, k: string)
    requires ShapesValid(was) && ShapesValid(now) && TableValid(was, t) && r in now && k != key
    requires now[r].keys == (if t.shape.Some? then was[t.shape.value].keys else []) + [Name(key)]
    ensures k in now[r].slots <==> t.shape.Some? && k in was[t.shape.value].slots
    ensures k in now[r].slots ==> now[r].slots[k] == was[t.shape.value].slots[k] < |t.slots|
  {
    assert now[r].Valid();
    if t.shape.Some? {
      var d := was[t.shape.value];
      assert d.Valid();
      if k in d.slots {
        assert now[r].keys[d.slots[k]] == Name(k);
      }
    }
  }

  /** A table without its nil slots, and the dictionary for it: what compact
      has of the first n slots. */
  ghost predicate CompactTo(d: Shape, slots: seq<Value>, n: nat, c: Shape, live: seq<Value>)
    requires d.Valid() && |slots| == |d.keys| && n <= |slots|
  {
    && c.dict && c.next == map[] && |live| == |c.keys|
    && (forall j :: 0 <= j < |live| ==> live[j] != Nil && c.keys[j].Name?)
    && (forall j :: 0 <= j < |c.keys| && c.keys[j].Name? ==> c.keys[j].s in c.slots && c.slots[c.keys[j].s] == j)
    && (forall k :: k in c.slots ==> c.slots[k] < |live| && c.keys[c.slots[k]] == Name(k))
    && (forall k :: k in c.slots <==> k in d.slots && d.slots[k] < n && slots[d.slots[k]] != Nil)
    && (forall k :: k in c.slots ==> live[c.slots[k]] == slots[d.slots[k]])
  }

  /** A dictionary with the keys of nil slots buried, as far as slot n. */
  ghost predicate BuriedTo(d: Shape, slots: seq<Value>, hash: string -> int, n: nat, b: Shape)
    requires d.Valid() && |slots| == |d.keys| && n <= |slots|
  {
    && b.dict && b.next == map[] && |b.keys| == n
    && (forall i :: 0 <= i < n ==>
          b.keys[i] == if d.keys[i].Name? && slots[i] == Nil then Tombstone(hash(d.keys[i].s)) else d.keys[i])
    && (forall k :: k in b.slots <==> k in d.slots && d.slots[k] < n && slots[d.slots[k]] != Nil)
    && (forall k :: k in b.slots ==> b.slots[k] == d.slots[k])
  }

  /** A table's dictionary has nil slots that may not be buried yet. */
  predicate Buries(shapes: ShapeMap, t: Table) {
    t.shape.Some? && t.shape.value in shapes && shapes[t.shape.value].dict && t.dead > t.buried
  }

  /** All of a table's nil slots are buried in b. */
  ghost predicate BuriedFrom(shapes: ShapeMap, t: Table, hash: string -> int, b: Shape) {
    && t.shape.Some? && t.shape.value in shapes && shapes[t.shape.value].Valid()
    && |t.slots| == |shapes[t.shape.value].keys| && BuriedTo(shapes[t.shape.value], t.slots, hash, |t.slots|, b)
  }

  lemma BuriedReads(was: ShapeMap, now: ShapeMap, hash: string -> int, t: Table, r: nat)
    requires ShapesValid(was) && TableValid(was, t) && t.shape.Some? && r in now && was[t.shape.value].dict
    requires was[t.shape.value].Valid() && BuriedTo(was[t.shape.value], t.slots, hash, |t.slots|, now[r])
    ensures
      var after := t.(shape := Some(r), buried := t.dead);
      && TableValid(now, after)
      && forall k :: AtString(now, after, k) == AtString(was, t, k)
  {
  }

  lemma BuriedValid(d: Shape, slots: seq<Value>, hash: string -> int, b: Shape)
    requires d.Valid() && |slots| == |d.keys| && BuriedTo(d, slots, hash, |slots|, b)
    ensures b.Valid()
  {
  }

  lemma {:induction false} AllNil(slots: seq<Value>)
    requires forall j :: 0 <= j < |slots| ==> slots[j] == Nil
    ensures NilCount(slots) == |slots|
  {
    if |slots| > 0 {
      AllNil(slots[..|slots| - 1]);
    }
  }

  lemma {:induction false} NoNils(slots: seq<Value>)
    requires forall j :: 0 <= j < |slots| ==> slots[j] != Nil
    ensures NilCount(slots) == 0
  {
    if |slots| > 0 {
      NoNils(slots[..|slots| - 1]);
    }
  }

  /** A compacted table reads as it did. */
  lemma CompactedReads(was: ShapeMap, now: ShapeMap, t: Table, r: nat, live: seq<Value>)
    requires ShapesValid(was) && TableValid(was, t) && t.shape.Some? && r in now
    requires was[t.shape.value].Valid() && CompactTo(was[t.shape.value], t.slots, |t.slots|, now[r], live)
    ensures
      var compacted := t.(shape := Some(r), slots := live, dead := 0, buried := 0);
      && TableValid(now, compacted)
      && (forall k :: AtString(now, compacted, k) == AtString(was, t, k))
      && (forall k :: AtString(was, t, k) == Nil ==> k !in now[r].slots)
  {
  }

  /** Where only shape r may have gained keys, and no table but t may have it
      if it is a dictionary, the other tables stay as they were. */
  lemma OthersStay(was: ShapeMap, now: ShapeMap, tables: TableMap, t: nat, r: nat, u: nat)
    requires TablesValid(was, tables) && Evolves(was, now) && t in tables && u in tables && u != t && r in now
    requires forall o :: o in was && o != r ==> SameKeys(was[o], now[o])
    requires now[r].dict ==> r !in was || tables[t].shape == Some(r)
    ensures TableValid(now, tables[u])
    ensures forall k :: AtString(now, tables[u], k) == AtString(was, tables[u], k)
    ensures now[r].dict ==> tables[u].shape != Some(r)
  {
  }

  /** So that tables stay valid when t moves to shape r. */
  lemma MovedValid(was: ShapeMap, now: ShapeMap, tables: TableMap, t: nat, r: nat, moved: Table)
    requires TablesValid(was, tables) && Evolves(was, now) && t in tables && r in now
    requires forall o :: o in was && o != r ==> SameKeys(was[o], now[o])
    requires now[r].dict ==> r !in was || tables[t].shape == Some(r)
    requires TableValid(now, moved) && moved.shape == Some(r)
    ensures TablesValid(now, tables[t := moved])
    ensures forall u, k :: u in tables && u != t ==> AtString(now, tables[u], k) == AtString(was, tables[u], k)
  {
    var after := tables[t := moved];
    forall u | u in tables && u != t
      ensures TableValid(now, tables[u]) && (now[r].dict ==> tables[u].shape != Some(r))
      ensures forall k :: AtString(now, tables[u], k) == AtString(was, tables[u], k)
    {
      OthersStay(was, now, tables, t, r, u);
    }
    forall a, b | a in after && b in after && a != b
      ensures Unshared(now, after[a], after[b])
    {
      if a != t && b != t {
        assert Unshared(was, tables[a], tables[b]) && TableValid(was, tables[a]);
        if tables[a].shape.Some? {
          assert ShapeEvolves(was[tables[a].shape.value], now[tables[a].shape.value]);
        }
      }
    }
  }

  /** Tables are numbered below next, and so are their metatables. */
  ghost predicate Placed(tables: TableMap, next: nat) {
    forall t :: t in tables ==> t < next && (tables[t].meta.Some? ==> tables[t].meta.value in tables)
  }

  /** The root has no keys, and sites remember only shared shapes. */
  ghost predicate RootSound(shapes: ShapeMap, root: nat) {
    root in shapes && !shapes[root].dict && shapes[root].keys == []
  }

  ghost predicate SitesSound(shapes: ShapeMap, sites: map<nat, Option<nat>>) {
    forall i :: i in sites && sites[i].Some? ==> sites[i].value in shapes && !shapes[sites[i].value].dict
  }

  lemma RootStays(was: ShapeMap, now: ShapeMap, root: nat, sites: map<nat, Option<nat>>)
    requires Evolves(was, now)
    ensures RootSound(was, root) ==> RootSound(now, root)
    ensures SitesSound(was, sites) ==> SitesSound(now, sites)
  {
  }

  /** From the old shapes and tables to the new, only t's fields may have
      changed. */
  ghost predicate OnlyChanged(was: ShapeMap, before: TableMap, now: ShapeMap, after: TableMap, t: nat) {
    && Evolves(was, now) && after.Keys == before.Keys
    && (forall u :: u in after && u != t ==> after[u] == before[u])
    && (forall u, k :: u in after && u != t ==> AtString(now, after[u], k) == AtString(was, before[u], k))
    && (t in after ==> after[t].meta == before[t].meta && after[t].flags == before[t].flags)
  }

  lemma NothingChanged(shapes: ShapeMap, tables: TableMap, t: nat)
    ensures OnlyChanged(shapes, tables, shapes, tables, t)
  {
  }

  /** Moving t to shape r changes only t. */
  lemma Moves(was: ShapeMap, now: ShapeMap, tables: TableMap, t: nat, r: nat, moved: Table, next: nat)
    requires TablesValid(was, tables) && Placed(tables, next) && Evolves(was, now) && t in tables && r in now
    requires forall o :: o in was && o != r ==> SameKeys(was[o], now[o])
    requires now[r].dict ==> r !in was || tables[t].shape == Some(r)
    requires TableValid(now, moved) && moved.shape == Some(r)
    requires moved.meta == tables[t].meta && moved.flags == tables[t].flags
    ensures TablesValid(now, tables[t := moved]) && Placed(tables[t := moved], next)
    ensures OnlyChanged(was, tables, now, tables[t := moved], t)
  {
    hide TablesValid, TableValid, AtString, Evolves, SameKeys;
    MovedValid(was, now, tables, t, r, moved);
  }

  // ---------- Shapes that change ----------

  function Grown(d: Shape, key: string): Shape {
    d.(slots := d.slots[key := |d.keys|], keys := d.keys + [Name(key)])
  }

  lemma DictionaryGrows(shapes: ShapeMap, s: nat, key: string)
    requires ShapesValid(shapes) && s in shapes && shapes[s].dict && key !in shapes[s].slots
    ensures ShapesValid(shapes[s := Grown(shapes[s], key)]) && Evolves(shapes, shapes[s := Grown(shapes[s], key)])
  {
    var grown := shapes[s := Grown(shapes[s], key)];
    GrownValid(shapes[s], key);
    forall p, k | p in grown && k in grown[p].next
      ensures ChildValid(grown, p, k)
    {
      assert p != s && ChildValid(shapes, p, k);
    }
  }

  lemma GrownValid(d: Shape, key: string)
    requires d.Valid() && key !in d.slots
    ensures Grown(d, key).Valid()
  {
  }

  /** Replacing a shape by one it may evolve to keeps the others. */
  lemma UpdateEvolves(shapes: ShapeMap, s: nat, d: Shape)
    requires s in shapes && ShapeEvolves(shapes[s], d)
    ensures Evolves(shapes, shapes[s := d])
  {
  }

  lemma AddEvolves(shapes: ShapeMap, r: nat, d: Shape)
    requires r !in shapes
    ensures Evolves(shapes, shapes[r := d])
  {
  }

  /** A shape's new child changes neither its slots nor its keys. */
  lemma SharedGrows(shapes: ShapeMap, s: nat, key: string, c: nat)
    requires ShapesValid(shapes) && s in shapes && !shapes[s].dict && c in shapes
    requires !shapes[c].dict && shapes[c].keys == shapes[s].keys + [Name(key)]
    ensures
      var grown := shapes[s := shapes[s].(next := shapes[s].next[key := c])];
      ShapesValid(grown) && Evolves(shapes, grown)
  {
    var grown := shapes[s := shapes[s].(next := shapes[s].next[key := c])];
    UpdateEvolves(shapes, s, grown[s]);
    forall p, k | p in grown && k in grown[p].next
      ensures ChildValid(grown, p, k)
    {
      ChildStays(shapes, s, key, c, p, k);
    }
    forall p | p in grown
      ensures grown[p].Valid()
    {
      assert shapes[p].Valid();
    }
  }

  lemma ChildStays(shapes: ShapeMap, s: nat, key: string, c: nat, p: nat, k: string)
    requires ShapesValid(shapes) && s in shapes && c in shapes
    requires !shapes[c].dict && shapes[c].keys == shapes[s].keys + [Name(key)]
    requires p in shapes && (k in shapes[p].next || (p == s && k == key))
    ensures
      var grown := shapes[s := shapes[s].(next := shapes[s].next[key := c])];
      k in grown[p].next && ChildValid(grown, p, k)
  {
  }

  lemma ChildOf(shapes: ShapeMap, s: nat, key: string)
    requires ShapesValid(shapes) && s in shapes && key in shapes[s].next
    ensures shapes[s].next[key] in shapes && !shapes[shapes[s].next[key]].dict
    ensures shapes[shapes[s].next[key]].keys == shapes[s].keys + [Name(key)]
  {
  }

  lemma ChildShapeValid(shapes: ShapeMap, s: nat, key: string)
    requires ShapesValid(shapes) && s in shapes && !shapes[s].dict && key !in shapes[s].slots
    ensures Shape(shapes[s].slots[key := |shapes[s].keys|], shapes[s].keys + [Name(key)], map[], false).Valid()
  {
  }

  /** The shapes and tables of a state. */
  class World {
    const root: nat
    const hash: string -> int
    var shapes: ShapeMap
    var tables: TableMap
    var sites: map<nat, Option<nat>>
    var nextShape: nat
    var nextTable: nat

    /** A state with no tables yet, and the instructions that make them. */
    constructor (hash: string -> int, instructions: set<nat>)
      ensures Sound() && this.hash == hash && tables == map[] && sites == map i | i in instructions :: None
    {
      this.hash, root := hash, 0;
      shapes := map[0 := Shape(map[], [], map[], false)];
      tables := map[];
      sites := map i | i in instructions :: None;
      nextShape, nextTable := 1, 0;
    }

    ghost predicate ShapesSound()
      reads this`shapes, this`nextShape
    {
      ShapesValid(shapes) && forall s :: s in shapes ==> s < nextShape
    }

    /** Adds a shape. */
    method Add(d: Shape) returns (r: nat)
      requires ShapesSound() && d.Valid() && d.next == map[]
      modifies this`shapes, this`nextShape
      ensures ShapesSound() && r !in old(shapes) && shapes == old(shapes)[r := d]
    {
      r := nextShape;
      shapes := shapes[r := d];
      nextShape := nextShape + 1;
      assert forall s, k :: s in old(shapes) && k in shapes[s].next ==> ChildValid(old(shapes), s, k);
    }

    /** Adds a dictionary with the keys of s. */
    method Dictionary(s: nat) returns (r: nat)
      requires ShapesSound() && s in shapes
      modifies this`shapes, this`nextShape
      ensures ShapesSound() && r !in old(shapes) && Evolves(old(shapes), shapes)
      ensures shapes == old(shapes)[r := Shape(old(shapes[s].slots), old(shapes[s].keys), map[], true)]
    {
      r := Add(Shape(shapes[s].slots, shapes[s].keys, map[], true));
      AddEvolves(old(shapes), r, shapes[r]);
    }

    /** The shape for s plus a key, whose value goes in a new last slot: s
        itself if it is a dictionary, and otherwise a shared child or a new
        private dictionary. No other shape gains keys. */
    method With(s: nat, key: string) returns (r: nat)
      requires ShapesSound() && s in shapes && key !in shapes[s].slots
      modifies this`shapes, this`nextShape
      ensures ShapesSound() && Evolves(old(shapes), shapes)
      ensures r in shapes && shapes[r].keys == old(shapes[s].keys) + [Name(key)]
      ensures forall o :: o in old(shapes) && o != r ==> SameKeys(old(shapes[o]), shapes[o])
      ensures shapes[r].dict ==> r == s || r !in old(shapes)
      ensures old(shapes[s].dict) ==> r == s
      decreases !shapes[s].dict
    {
      hide Shape.Valid, ShapesValid, Evolves, ChildValid;
      var shape := shapes[s];
      if shape.dict {
        shapes := shapes[s := Grown(shape, key)];
        DictionaryGrows(old(shapes), s, key);
        return s;
      }
      if key in shape.next {
        ChildOf(shapes, s, key);
        EvolvesReflexive(shapes);
        return shape.next[key];
      }
      if |shape.keys| >= MAX_SHARED_SHAPE_KEYS || |shape.next| >= MAX_SHAPE_CHILDREN || |key| > MAX_SHARED_KEY_LEN {
        var d := Dictionary(s);
        ghost var copied := shapes;
        r := With(d, key);
        EvolvesTransitive(old(shapes), copied, shapes);
        return;
      }
      r := Child(s, key);
    }

    /** A new shared child of a shared shape. */
    method Child(s: nat, key: string) returns (r: nat)
      requires ShapesSound() && s in shapes && !shapes[s].dict && key !in shapes[s].slots
      modifies this`shapes, this`nextShape
      ensures ShapesSound() && Evolves(old(shapes), shapes)
      ensures r in shapes && r !in old(shapes) && !shapes[r].dict && shapes[r].keys == old(shapes[s].keys) + [Name(key)]
      ensures forall o :: o in old(shapes) ==> SameKeys(old(shapes[o]), shapes[o])
    {
      hide Shape.Valid, ShapesValid, Evolves, ChildValid;
      var shape := shapes[s];
      ChildShapeValid(shapes, s, key);
      r := Add(Shape(shape.slots[key := |shape.keys|], shape.keys + [Name(key)], map[], false));
      ghost var added := shapes;
      AddEvolves(old(shapes), r, shapes[r]);
      shapes := shapes[s := shape.(next := shape.next[key := r])];
      SharedGrows(added, s, key, r);
      EvolvesTransitive(old(shapes), added, shapes);
    }

    // ---------- Tables that change ----------

    /** Shapes and tables are sound; dictionaries are private. */
    ghost predicate Sound()
      reads this
    {
      && ShapesSound() && TablesValid(shapes, tables) && Placed(tables, nextTable)
      && RootSound(shapes, root) && SitesSound(shapes, sites)
    }

    function Read(t: nat, k: string): Value
      requires t in tables
      reads this`shapes, this`tables
    {
      AtString(shapes, tables[t], k)
    }

    /** Sets a field that has a slot. */
    method PutSlot(t: nat, key: string, v: Value)
      requires Sound() && t in tables
      requires tables[t].shape.Some? && key in shapes[tables[t].shape.value].slots
      modifies this`tables
      ensures Sound() && OnlyChanged(old(shapes), old(tables), shapes, tables, t)
      ensures forall k :: Read(t, k) == if k == key then v else old(Read(t, k))
      ensures tables[t].shape == old(tables[t].shape)
    {
      var table := tables[t];
      var d := shapes[table.shape.value];
      assert d.Valid();
      var i := d.slots[key];
      var was, dead := table.slots[i], table.dead;
      if d.dict {
        if was == Nil && v != Nil {
          dead := dead - 1;
        } else if was != Nil && v == Nil {
          dead := dead + 1;
        }
      }
      SetSlot(t, key, i, v, dead);
    }

    /** Stores in slot i, key's slot, with the nil slots then counted. */
    method SetSlot(t: nat, key: string, i: nat, v: Value, dead: int)
      requires Sound() && t in tables && tables[t].shape.Some? && key in shapes[tables[t].shape.value].slots
      requires i == shapes[tables[t].shape.value].slots[key] && i < |tables[t].slots|
      requires
        var d, was := shapes[tables[t].shape.value], tables[t].slots[i];
        dead == tables[t].dead
                + (if d.dict && was == Nil && v != Nil then 0 - 1 else if d.dict && was != Nil && v == Nil then 1 else 0)
      modifies this`tables
      ensures Sound() && OnlyChanged(old(shapes), old(tables), shapes, tables, t)
      ensures forall k :: Read(t, k) == if k == key then v else old(Read(t, k))
      ensures tables[t].shape == old(tables[t].shape)
    {
      var table := tables[t];
      StoredReads(shapes, table, key, v, dead);
      tables := tables[t := table.(slots := table.slots[i := v], dead := dead)];
      EvolvesReflexive(shapes);
    }

    /** Gives t a new last slot, for a field that has none. */
    method Extend(t: nat, key: string, v: Value)
      requires Sound() && t in tables && v != Nil
      requires tables[t].shape.Some? ==> key !in shapes[tables[t].shape.value].slots
      modifies this`shapes, this`nextShape, this`tables, this`sites
      ensures Sound() && OnlyChanged(old(shapes), old(tables), shapes, tables, t)
      ensures forall k :: Read(t, k) == if k == key then v else old(Read(t, k))
    {
      hide Shape.Valid, ShapesValid, TableValid, TablesValid, AtString, Evolves, SameKeys, OnlyChanged, Placed;
      var table := tables[t];
      Lacks(t, key);
      var s := if table.shape.Some? then table.shape.value else root;
      var r := With(s, key);
      KindsStay(old(shapes), shapes);
      AppendedReads(old(shapes), shapes, table, r, key, v);
      Moves(old(shapes), shapes, old(tables), t, r, table.(shape := Some(r), slots := table.slots + [v]), nextTable);
      RootStays(old(shapes), shapes, root, sites);
      tables := tables[t := table.(shape := Some(r), slots := table.slots + [v])];
      if table.site.Some? {
        sites := sites[table.site.value := if shapes[r].dict then None else Some(r)];
      }
    }

    lemma Lacks(t: nat, key: string)
      requires Sound() && t in tables
      requires tables[t].shape.Some? ==> key !in shapes[tables[t].shape.value].slots
      ensures tables[t].shape.Some? ==> tables[t].shape.value in shapes
      ensures key !in shapes[root].slots && TableValid(shapes, tables[t])
    {
    }

    /** What soundness says of t. */
    lemma Known(t: nat)
      requires Sound() && t in tables
      ensures TableValid(shapes, tables[t])
      ensures tables[t].shape.Some? ==> tables[t].shape.value in shapes && shapes[tables[t].shape.value].Valid()
    {
    }

    lemma Alike(was: ShapeMap, r: nat, c: Shape)
      requires r !in was
      ensures forall o :: o in was ==> SameKeys(was[o], was[r := c][o])
    {
    }

    lemma KindsStay(was: ShapeMap, now: ShapeMap)
      requires Evolves(was, now)
      ensures forall s :: s in was ==> s in now && now[s].dict == was[s].dict
      ensures forall s :: s in was && !was[s].dict ==> now[s].keys == was[s].keys
    {
    }

    /** Moves t to a dictionary that has just its live fields. */
    method Compact(t: nat)
      requires Sound() && t in tables && tables[t].shape.Some? && shapes[tables[t].shape.value].dict
      modifies this`shapes, this`nextShape, this`tables
      ensures Sound() && OnlyChanged(old(shapes), old(tables), shapes, tables, t)
      ensures forall k :: Read(t, k) == old(Read(t, k))
      ensures tables[t].shape.Some? && shapes[tables[t].shape.value].dict
      ensures forall i :: 0 <= i < |tables[t].slots| ==> tables[t].slots[i] != Nil
      ensures forall k :: old(Read(t, k)) == Nil ==> k !in shapes[tables[t].shape.value].slots
      ensures tables[t].site == old(tables[t].site)
    {
      hide Shape.Valid, ShapesValid, TablesValid, AtString, Evolves, SameKeys, CompactTo, OnlyChanged, Placed, RootSound, SitesSound;
      var table := tables[t];
      Known(t);
      var d := shapes[table.shape.value];
      var c, live := CompactSlots(d, table.slots);
      var r := Add(c);
      AddEvolves(old(shapes), r, c);
      Alike(old(shapes), r, c);
      KindsStay(old(shapes), shapes);
      CompactedReads(old(shapes), shapes, table, r, live);
      Moves(old(shapes), shapes, tables, t, r, table.(shape := Some(r), slots := live, dead := 0, buried := 0), nextTable);
      RootStays(old(shapes), shapes, root, sites);
      tables := tables[t := table.(shape := Some(r), slots := live, dead := 0, buried := 0)];
    }

    method CompactSlots(d: Shape, slots: seq<Value>) returns (c: Shape, live: seq<Value>)
      requires d.Valid() && |slots| == |d.keys|
      requires forall i :: 0 <= i < |slots| && d.keys[i].Tombstone? ==> slots[i] == Nil
      ensures CompactTo(d, slots, |slots|, c, live) && c.Valid() && c.next == map[] && c.dict
      ensures forall i :: 0 <= i < |live| ==> live[i] != Nil
    {
      c, live := Shape(map[], [], map[], true), [];
      var i := 0;
      while i < |slots|
        invariant 0 <= i <= |slots| && CompactTo(d, slots, i, c, live)
      {
        if slots[i] != Nil {
          var k := d.keys[i].s;
          CompactStep(d, slots, i, c, live);
          c := Grown(c, k);
          live := live + [slots[i]];
        } else {
          CompactSkip(d, slots, i, c, live);
        }
        i := i + 1;
      }
    }

    lemma CompactStep(d: Shape, slots: seq<Value>, i: nat, c: Shape, live: seq<Value>)
      requires d.Valid() && |slots| == |d.keys| && i < |slots| && d.keys[i].Name? && slots[i] != Nil
      requires CompactTo(d, slots, i, c, live)
      ensures CompactTo(d, slots, i + 1, Grown(c, d.keys[i].s), live + [slots[i]])
    {
    }

    lemma CompactSkip(d: Shape, slots: seq<Value>, i: nat, c: Shape, live: seq<Value>)
      requires d.Valid() && |slots| == |d.keys| && i < |slots| && slots[i] == Nil
      requires CompactTo(d, slots, i, c, live)
      ensures CompactTo(d, slots, i + 1, c, live)
    {
    }

    /** A copy of a dictionary without the keys of nil slots, whose slots keep
        tombstones. */
    method Buried(d: Shape, slots: seq<Value>) returns (b: Shape)
      requires d.Valid() && |slots| == |d.keys|
      ensures BuriedTo(d, slots, hash, |slots|, b) && b.Valid() && b.next == map[] && b.dict
    {
      b := Shape(map[], [], map[], true);
      var i := 0;
      while i < |slots|
        invariant 0 <= i <= |slots| && BuriedTo(d, slots, hash, i, b)
      {
        var k := d.keys[i];
        if k.Name? && slots[i] == Nil {
          b := b.(keys := b.keys + [Tombstone(hash(k.s))]);
        } else if k.Name? {
          b := Grown(b, k.s);
        } else {
          b := b.(keys := b.keys + [k]);
        }
        i := i + 1;
      }
      BuriedValid(d, slots, hash, b);
    }

    /** Moves t, if it Buries, to a dictionary with tombstones for its nil slots. */
    method BuryDeadKeys(t: nat)
      requires Sound() && t in tables
      modifies this`shapes, this`nextShape, this`tables
      ensures Sound() && OnlyChanged(old(shapes), old(tables), shapes, tables, t)
      ensures forall k :: Read(t, k) == old(Read(t, k))
      ensures tables[t].slots == old(tables[t].slots)
      ensures
        if Buries(old(shapes), old(tables[t])) then
          && tables[t].shape.Some? && tables[t].shape.value in shapes
          && BuriedFrom(old(shapes), old(tables[t]), hash, shapes[tables[t].shape.value])
        else tables == old(tables) && shapes == old(shapes)
    {
      hide Shape.Valid, ShapesValid, TablesValid, AtString, Evolves, SameKeys, BuriedTo, OnlyChanged, Placed, RootSound, SitesSound;
      var table := tables[t];
      Known(t);
      NothingChanged(shapes, tables, t);
      if table.shape.Some? && shapes[table.shape.value].dict && table.dead > table.buried {
        var d := shapes[table.shape.value];
        var b := Buried(d, table.slots);
        var r := Add(b);
        AddEvolves(old(shapes), r, b);
        Alike(old(shapes), r, b);
        KindsStay(old(shapes), shapes);
        BuriedReads(old(shapes), shapes, hash, table, r);
        Moves(old(shapes), shapes, tables, t, r, table.(shape := Some(r), buried := table.dead), nextTable);
        RootStays(old(shapes), shapes, root, sites);
        tables := tables[t := table.(shape := Some(r), buried := table.dead)];
      }
    }

    /** Sets a field. */
    method PutString(t: nat, key: string, v: Value)
      requires Sound() && t in tables
      modifies this`shapes, this`nextShape, this`tables, this`sites
      ensures Sound() && OnlyChanged(old(shapes), old(tables), shapes, tables, t)
      ensures forall k :: Read(t, k) == if k == key then v else old(Read(t, k))
      ensures old(tables[t].shape.Some? && key in shapes[tables[t].shape.value].slots) ==>
        shapes == old(shapes) && tables[t].shape == old(tables[t].shape)
    {
      hide Shape.Valid, ShapesValid, TablesValid, AtString, Evolves, SameKeys, Placed, RootSound, SitesSound;
      var table := tables[t];
      Known(t);
      EvolvesReflexive(shapes);
      if table.shape.Some? && key in shapes[table.shape.value].slots {
        PutSlot(t, key, v);
        return;
      }
      NoSlot(shapes, table, key);
      assert old(Read(t, key)) == Nil;
      if v == Nil {
        return;
      }
      if table.shape.Some? && shapes[table.shape.value].dict && table.dead > MIN_COMPACT_SLOTS && table.dead > |table.slots| / 2 {
        Compact(t);
      }
      ghost var between := shapes;
      Known(t);
      Extend(t, key, v);
      EvolvesTransitive(old(shapes), between, shapes);
    }

    lemma NoSlot(shapes: ShapeMap, t: Table, key: string)
      requires t.shape.Some? ==> t.shape.value in shapes && key !in shapes[t.shape.value].slots
      ensures AtString(shapes, t, key) == Nil
    {
    }

    /** Stores in a field that holds a value already. */
    method TryPut(t: nat, key: string, v: Value) returns (done: bool)
      requires Sound() && t in tables
      modifies this`tables
      ensures Sound() && OnlyChanged(old(shapes), old(tables), shapes, tables, t)
      ensures done == (old(Read(t, key)) != Nil) && (!done ==> tables == old(tables))
      ensures forall k :: Read(t, k) == if done && k == key then v else old(Read(t, k))
    {
      hide Shape.Valid, ShapesValid, TablesValid, Evolves;
      Known(t);
      EvolvesReflexive(shapes);
      if Read(t, key) == Nil {
        return false;
      }
      PutSlot(t, key, v);
      return true;
    }

    /** A table that has no string key yet. */
    method NewTable() returns (t: nat)
      requires Sound()
      modifies this`tables, this`nextTable
      ensures Sound() && t !in old(tables) && tables == old(tables)[t := Table(None, [], None, None, {}, 0, 0)]
    {
      t := nextTable;
      nextTable := nextTable + 1;
      var table := Table(None, [], None, None, {}, 0, 0);
      NewValid(shapes, tables, t, table);
      tables := tables[t := table];
    }

    /** A table for an instruction that makes them, laid out as the last one
        was, with every slot nil. */
    method NewTableAt(site: nat) returns (t: nat)
      requires Sound() && site in sites
      modifies this`tables, this`nextTable
      ensures Sound() && t !in old(tables) && tables.Keys == old(tables.Keys) + {t}
      ensures forall u :: u in old(tables) ==> tables[u] == old(tables[u])
      ensures tables[t].meta == None && tables[t].flags == {} && forall k :: Read(t, k) == Nil
      ensures tables[t].shape == sites[site] && tables[t].site == Some(site)
      ensures forall i :: 0 <= i < |tables[t].slots| ==> tables[t].slots[i] == Nil
    {
      t := nextTable;
      nextTable := nextTable + 1;
      var s := sites[site];
      var n := if s.Some? then |shapes[s.value].keys| else 0;
      var table := Table(s, seq(n, _ => Nil), None, Some(site), {}, 0, 0);
      if s.Some? {
        assert shapes[s.value].Valid();
      }
      assert TableValid(shapes, table);
      NewValid(shapes, tables, t, table);
      tables := tables[t := table];
    }

    lemma NewValid(shapes: ShapeMap, tables: TableMap, t: nat, table: Table)
      requires TablesValid(shapes, tables) && t !in tables && TableValid(shapes, table)
      requires table.shape.Some? ==> !shapes[table.shape.value].dict
      ensures TablesValid(shapes, tables[t := table])
    {
    }

    method SetMetaTable(t: nat, mt: Option<nat>)
      requires Sound() && t in tables && (mt.Some? ==> mt.value in tables)
      modifies this`tables
      ensures Sound() && tables == old(tables)[t := old(tables[t]).(meta := mt)]
      ensures forall u, k :: u in tables ==> Read(u, k) == old(Read(u, k))
    {
      var table := tables[t].(meta := mt);
      Relabelled(shapes, tables, t, table);
      tables := tables[t := table];
    }

    /** A store may give the table a tag method: no event is known to lack one. */
    method InvalidateTagMethodCache(t: nat)
      requires Sound() && t in tables
      modifies this`tables
      ensures Sound() && tables == old(tables)[t := old(tables[t]).(flags := {})]
      ensures forall u, k :: u in tables ==> Read(u, k) == old(Read(u, k))
    {
      var table := tables[t].(flags := {});
      Relabelled(shapes, tables, t, table);
      tables := tables[t := table];
    }

    lemma Relabelled(shapes: ShapeMap, tables: TableMap, t: nat, table: Table)
      requires TablesValid(shapes, tables) && t in tables
      requires table == tables[t].(meta := table.meta, flags := table.flags)
      ensures TablesValid(shapes, tables[t := table])
      ensures forall k :: AtString(shapes, table, k) == AtString(shapes, tables[t], k)
    {
    }
  }
}
