/** Inline caches of fields: whenever one answers, the answer is the generic
    path's, whatever stores came between. */
module FieldCache {
  import opened Wrappers
  import opened Shapes
  import opened Lookup

  const MAX_CHAIN := 8

  /** Whose fields a cache is of: tables of a shape, or strings. */
  datatype Receiver = Unset | Strings | Of(shape: nat)

  /** One step from a table through its metatable to the __index table. */
  datatype Level = Level(mtShape: nat, mtSlot: nat, index: nat)

  /** Steps after the first, and the key's slot after them if it is there. */
  datatype Chain = Chain(levels: seq<Level>, slot: Option<nat>)

  datatype Cache = Cache(shape: Receiver, slot: Option<nat>, mtShape: Option<nat>, mtSlot: nat,
                         index: Option<nat>, indexSlot: Option<nat>, chain: Option<Chain>)

  const EMPTY := Cache(Unset, None, None, 0, None, None, None)

  /** An answer, none, or an index out of the range of a table's slots. */
  datatype Answer = Hit(v: Value) | Miss | Panic

  // ---------- What a cache may hold ----------

  /** Shape s has key k in slot i. */
  predicate HasSlot(shapes: ShapeMap, s: nat, k: string, i: nat) {
    s in shapes && k in shapes[s].slots && shapes[s].slots[k] == i
  }

  /** Shape s lacks key k, and always will. */
  predicate Lacks(shapes: ShapeMap, s: nat, k: string) {
    s in shapes && !shapes[s].dict && k !in shapes[s].slots
  }

  ghost predicate LevelSound(shapes: ShapeMap, l: Level) {
    HasSlot(shapes, l.mtShape, EVENT_NAMES[INDEX], l.mtSlot) && l.index in shapes
  }

  /** The key is in no table of a chain but the last, and there in its slot. */
  ghost predicate ChainSound(shapes: ShapeMap, ch: Chain, key: string) {
    && (forall j :: 0 <= j < |ch.levels| ==> LevelSound(shapes, ch.levels[j]))
    && (forall j :: 0 <= j < |ch.levels| && (j < |ch.levels| - 1 || ch.slot.None?) ==> Lacks(shapes, ch.levels[j].index, key))
    && (ch.slot.Some? ==> |ch.levels| > 0 && HasSlot(shapes, ch.levels[|ch.levels| - 1].index, key, ch.slot.value))
    && |ch.levels| <= MAX_CHAIN
  }

  /** What a cache says of shapes is so. */
  ghost predicate Sound(shapes: ShapeMap, c: Cache, key: string) {
    && (c.shape.Of? ==> if c.slot.Some? then HasSlot(shapes, c.shape.shape, key, c.slot.value) else Lacks(shapes, c.shape.shape, key))
    && (c.mtShape.Some? ==>
          && HasSlot(shapes, c.mtShape.value, EVENT_NAMES[INDEX], c.mtSlot) && c.index.Some? && c.index.value in shapes
          && if c.indexSlot.Some? then HasSlot(shapes, c.index.value, key, c.indexSlot.value)
             else c.chain.Some? && Lacks(shapes, c.index.value, key) && ChainSound(shapes, c.chain.value, key))
  }

  /** As shapes evolve a sound cache stays sound. */
  lemma StaysSound(was: ShapeMap, now: ShapeMap, c: Cache, key: string)
    requires Sound(was, c, key) && Evolves(was, now)
    ensures Sound(now, c, key)
  {
  }

  /** A cache is never stale: what was sound at any time in a run of stores is
      sound at any later one. */
  lemma {:induction false} NeverStale(run: seq<ShapeMap>, c: Cache, key: string, i: nat, j: nat)
    requires i <= j < |run| && Sound(run[i], c, key)
    requires forall k :: 0 <= k < |run| - 1 ==> Evolves(run[k], run[k + 1])
    ensures Sound(run[j], c, key)
    decreases j - i
  {
    if i < j {
      StaysSound(run[i], run[i + 1], c, key);
      NeverStale(run, c, key, i + 1, j);
    }
  }

  // ---------- What a cache answers ----------

  /** The table in slot i of t, whose shape must be as given. */
  function Through(tables: TableMap, t: Table, i: nat, shape: Option<nat>): Option<nat>
    requires i < |t.slots|
  {
    var idx := TableOf(tables, t.slots[i]);
    if idx.Some? && tables[idx.value].shape == shape then idx else None
  }

  /** The chain from its level i on, at table t. */
  function FromChain(tables: TableMap, ch: Chain, t: nat, i: nat): Answer
    requires i <= |ch.levels|
    decreases |ch.levels| - i
  {
    if t !in tables then Miss
    else if i == |ch.levels| then
      if ch.slot.None? then (if tables[t].meta.None? then Hit(Nil) else Miss)
      else SlotAnswer(tables[t], ch.slot.value)
    else
      var l, mt := ch.levels[i], tables[t].meta;
      if mt.None? || mt.value !in tables || tables[mt.value].shape != Some(l.mtShape) then Miss
      else if l.mtSlot >= |tables[mt.value].slots| then Panic
      else match Through(tables, tables[mt.value], l.mtSlot, Some(l.index))
        case None => Miss
        case Some(next) => FromChain(tables, ch, next, i + 1)
  }

  function SlotAnswer(t: Table, i: nat): Answer {
    if i >= |t.slots| then Panic else if t.slots[i] == Nil then Miss else Hit(t.slots[i])
  }

  /** Through the receiver's metatable. */
  function FromMeta(tables: TableMap, c: Cache, mt: Option<nat>): Answer {
    if mt.None? then (if c.mtShape.None? then Hit(Nil) else Miss)
    else if mt.value !in tables || tables[mt.value].shape != c.mtShape then Miss
    else if c.mtSlot >= |tables[mt.value].slots| then Panic
    else match Through(tables, tables[mt.value], c.mtSlot, c.index)
      case None => Miss
      case Some(idx) =>
        if c.indexSlot.Some? then SlotAnswer(tables[idx], c.indexSlot.value)
        else if c.chain.None? then Panic
        else FromChain(tables, c.chain.value, idx, 0)
  }

  /** For a table of the cache's shape: its own field, or the metatable's. */
  function LookupAnswer(tables: TableMap, c: Cache, t: Table): Answer {
    if c.slot.Some? && c.slot.value >= |t.slots| then Panic
    else if c.slot.Some? && t.slots[c.slot.value] != Nil then Hit(t.slots[c.slot.value])
    else FromMeta(tables, c, t.meta)
  }

  // ---------- Answers are the generic path's ----------

  /** Shapes and tables as a sound world has them. */
  ghost predicate StoreSound(shapes: ShapeMap, tables: TableMap) {
    && ShapesValid(shapes) && TablesValid(shapes, tables)
    && (forall t :: t in tables && tables[t].meta.Some? ==> tables[t].meta.value in tables)
  }

  lemma SlotReads(shapes: ShapeMap, tables: TableMap, t: nat, k: string, i: nat)
    requires StoreSound(shapes, tables) && t in tables && tables[t].shape.Some? && HasSlot(shapes, tables[t].shape.value, k, i)
    ensures i < |tables[t].slots| && AtString(shapes, tables[t], k) == tables[t].slots[i]
  {
  }

  lemma LacksReads(shapes: ShapeMap, t: Table, k: string)
    requires t.shape.Some? && Lacks(shapes, t.shape.value, k)
    ensures AtString(shapes, t, k) == Nil
  {
  }

  /** A chain's table at level i has the shape the level before says, or at the
      first level one that lacks the key. */
  ghost predicate AtLevel(shapes: ShapeMap, tables: TableMap, ch: Chain, t: nat, i: nat, key: string) {
    && t in tables && tables[t].shape.Some? && i <= |ch.levels|
    && (if i == 0 then Lacks(shapes, tables[t].shape.value, key) else tables[t].shape.value == ch.levels[i - 1].index)
  }

  /** A chain answers as the generic path does, and never out of range. */
  lemma {:induction false} ChainAnswers(shapes: ShapeMap, tables: TableMap, strings: Option<nat>, ch: Chain, t: nat, i: nat,
                                        key: string, fuel: nat)
    requires StoreSound(shapes, tables) && ChainSound(shapes, ch, key) && AtLevel(shapes, tables, ch, t, i, key)
    requires fuel > |ch.levels| - i
    ensures FromChain(tables, ch, t, i) != Panic
    ensures FromChain(tables, ch, t, i).Hit? ==>
      Index(shapes, tables, strings, TableRef(t), key, fuel) == Got(FromChain(tables, ch, t, i).v)
    decreases |ch.levels| - i
  {
    hide ShapesValid, TablesValid;
    if i == |ch.levels| {
      if ch.slot.Some? {
        SlotReads(shapes, tables, t, key, ch.slot.value);
      } else {
        LacksReads(shapes, tables[t], key);
      }
    } else {
      LacksReads(shapes, tables[t], key);
      var l, mt := ch.levels[i], tables[t].meta;
      assert LevelSound(shapes, l);
      if mt.Some? && tables[mt.value].shape == Some(l.mtShape) {
        SlotReads(shapes, tables, mt.value, EVENT_NAMES[INDEX], l.mtSlot);
        var next := Through(tables, tables[mt.value], l.mtSlot, Some(l.index));
        if next.Some? {
          ChainAnswers(shapes, tables, strings, ch, next.value, i + 1, key, fuel - 1);
        }
      }
    }
  }

  /** Through a metatable a cache answers as its __index does. It goes out of
      range just when neither the metatable nor the cache has a shape. */
  lemma MetaAnswers(shapes: ShapeMap, tables: TableMap, strings: Option<nat>, c: Cache, mt: nat, key: string)
    requires StoreSound(shapes, tables) && Sound(shapes, c, key) && mt in tables
    ensures FromMeta(tables, c, Some(mt)) == Panic <==> tables[mt].shape == None && c.mtShape == None
    ensures tables[mt].shape == None ==> !FromMeta(tables, c, Some(mt)).Hit?
    ensures FromMeta(tables, c, Some(mt)).Hit? ==>
      var tm := MetaField(shapes, tables, Some(mt), EVENT_NAMES[INDEX]);
      && tm.TableRef?
      && Index(shapes, tables, strings, tm, key, MAX_TAG_LOOP - 1) == Got(FromMeta(tables, c, Some(mt)).v)
  {
    hide ShapesValid, TablesValid;
    if tables[mt].shape == c.mtShape {
      if c.mtShape.None? {
        NoSlots(shapes, tables, mt);
      } else {
        SlotReads(shapes, tables, mt, EVENT_NAMES[INDEX], c.mtSlot);
        var next := Through(tables, tables[mt], c.mtSlot, c.index);
        if next.Some? {
          if c.indexSlot.Some? {
            SlotReads(shapes, tables, next.value, key, c.indexSlot.value);
          } else {
            ChainAnswers(shapes, tables, strings, c.chain.value, next.value, 0, key, MAX_TAG_LOOP - 1);
          }
        }
      }
    }
  }

  lemma NoSlots(shapes: ShapeMap, tables: TableMap, t: nat)
    requires StoreSound(shapes, tables) && t in tables
    ensures tables[t].shape.None? ==> tables[t].slots == []
  {
  }

  /** A sound cache of a table's shape answers what indexing the table does. */
  lemma CacheAnswers(shapes: ShapeMap, tables: TableMap, strings: Option<nat>, c: Cache, t: nat, key: string)
    requires StoreSound(shapes, tables) && Sound(shapes, c, key)
    requires t in tables && c.shape.Of? && tables[t].shape == Some(c.shape.shape)
    ensures LookupAnswer(tables, c, tables[t]).Hit? ==>
      Index(shapes, tables, strings, TableRef(t), key, MAX_TAG_LOOP) == Got(LookupAnswer(tables, c, tables[t]).v)
    ensures LookupAnswer(tables, c, tables[t]) == Panic <==>
      AtString(shapes, tables[t], key) == Nil && Shapeless(tables, tables[t].meta) && c.mtShape == None
    ensures AtString(shapes, tables[t], key) == Nil && Shapeless(tables, tables[t].meta) ==> !LookupAnswer(tables, c, tables[t]).Hit?
    ensures LookupAnswer(tables, c, tables[t]) == Hit(Nil) && tables[t].meta.None? ==> c.mtShape == None
    ensures AtString(shapes, tables[t], key) != Nil ==> LookupAnswer(tables, c, tables[t]).Hit?
    ensures tables[t].meta.None? && c.mtShape.None? ==> LookupAnswer(tables, c, tables[t]).Hit?
  {
    hide ShapesValid, TablesValid, FromMeta;
    if c.slot.Some? {
      SlotReads(shapes, tables, t, key, c.slot.value);
    } else {
      LacksReads(shapes, tables[t], key);
    }
    if tables[t].meta.Some? {
      MetaAnswers(shapes, tables, strings, c, tables[t].meta.value, key);
    } else {
      NoMeta(tables, c);
    }
  }

  lemma NoMeta(tables: TableMap, c: Cache)
    ensures FromMeta(tables, c, None) == if c.mtShape.None? then Hit(Nil) else Miss
  {
  }

  /** A metatable that never had a string key. */
  predicate Shapeless(tables: TableMap, mt: Option<nat>) {
    mt.Some? && mt.value in tables && tables[mt.value].shape == None
  }

  // ---------- The cache at work ----------

  /** The table with a shape that a metatable's __index field holds, if it does. */
  function ShapedIndex(shapes: ShapeMap, tables: TableMap, mt: nat): Option<nat> {
    var t := TableOf(tables, MetaField(shapes, tables, Some(mt), EVENT_NAMES[INDEX]));
    if t.Some? && tables[t.value].shape.Some? then t else None
  }

  /** That table, and the slot of the field. */
  method IndexTable(w: World, mt: nat) returns (idx: Option<nat>, slot: nat)
    requires StoreSound(w.shapes, w.tables) && mt in w.tables
    ensures idx == ShapedIndex(w.shapes, w.tables, mt)
    ensures idx.Some? ==>
      && idx.value in w.tables && w.tables[idx.value].shape.Some? && w.tables[idx.value].shape.value in w.shapes
      && w.tables[mt].shape.Some? && HasSlot(w.shapes, w.tables[mt].shape.value, EVENT_NAMES[INDEX], slot)
  {
    idx, slot := None, 0;
    if w.tables[mt].shape.None? || EVENT_NAMES[INDEX] !in w.shapes[w.tables[mt].shape.value].slots {
      return;
    }
    slot := w.shapes[w.tables[mt].shape.value].slots[EVENT_NAMES[INDEX]];
    SlotReads(w.shapes, w.tables, mt, EVENT_NAMES[INDEX], slot);
    idx := TableOf(w.tables, w.tables[mt].slots[slot]);
    if idx.Some? {
      assert TableValid(w.shapes, w.tables[idx.value]);
      if w.tables[idx.value].shape.None? {
        idx := None;
      }
    }
  }

  /** From t, whose shape lacks the key, so many further __index tables lead to one
      whose shape has it, or to the end, past shared shapes only. */
  predicate Chains(shapes: ShapeMap, tables: TableMap, t: nat, key: string, left: nat)
    decreases left
  {
    && t in tables && tables[t].shape.Some? && tables[t].shape.value in shapes && !shapes[tables[t].shape.value].dict
    && (tables[t].meta.None?
        || (var next := ShapedIndex(shapes, tables, tables[t].meta.value);
            && next.Some? && left > 0 && tables[next.value].shape.value in shapes
            && (key in shapes[tables[next.value].shape.value].slots || Chains(shapes, tables, next.value, key, left - 1))))
  }

  /** What metatable mt leads to can be cached. */
  predicate IndexCached(shapes: ShapeMap, tables: TableMap, mt: nat, key: string) {
    var idx := ShapedIndex(shapes, tables, mt);
    && idx.Some? && tables[idx.value].shape.value in shapes
    && (key in shapes[tables[idx.value].shape.value].slots || Chains(shapes, tables, idx.value, key, MAX_CHAIN))
  }

  /** A table's shape finds the key, or its metatable's part can be cached. */
  predicate Finds(shapes: ShapeMap, tables: TableMap, t: Table, key: string) {
    && t.shape.Some? && t.shape.value in shapes
    && (key in shapes[t.shape.value].slots || t.meta.None? || IndexCached(shapes, tables, t.meta.value, key))
  }

  /** An instruction's cache. */
  class Site {
    var c: Cache

    constructor ()
      ensures c == EMPTY
    {
      c := EMPTY;
    }

    /** Follows the chain from the first __index table. */
    method From(w: World, ch: Chain, first: nat, ghost key: string) returns (a: Answer)
      requires StoreSound(w.shapes, w.tables) && ChainSound(w.shapes, ch, key) && AtLevel(w.shapes, w.tables, ch, first, 0, key)
      ensures a == FromChain(w.tables, ch, first, 0)
    {
      var t, i := first, 0;
      while i < |ch.levels|
        invariant 0 <= i <= |ch.levels| && AtLevel(w.shapes, w.tables, ch, t, i, key)
        invariant FromChain(w.tables, ch, t, i) == FromChain(w.tables, ch, first, 0)
      {
        var l, mt := ch.levels[i], w.tables[t].meta;
        if mt.None? || w.tables[mt.value].shape != Some(l.mtShape) {
          return Miss;
        }
        assert LevelSound(w.shapes, l);
        SlotReads(w.shapes, w.tables, mt.value, EVENT_NAMES[INDEX], l.mtSlot);
        var next := TableOf(w.tables, w.tables[mt.value].slots[l.mtSlot]);
        if next.None? || w.tables[next.value].shape != Some(l.index) {
          return Miss;
        }
        t, i := next.value, i + 1;
      }
      if ch.slot.None? {
        return if w.tables[t].meta.None? then Hit(Nil) else Miss;
      }
      return SlotAnswer(w.tables[t], ch.slot.value);
    }

    /** Answers through the receiver's metatable. */
    method FromMetaTable(w: World, mt: Option<nat>, ghost key: string) returns (a: Answer)
      requires StoreSound(w.shapes, w.tables) && (mt.Some? ==> mt.value in w.tables) && Sound(w.shapes, c, key)
      ensures a == FromMeta(w.tables, c, mt)
    {
      if mt.None? {
        return if c.mtShape.None? then Hit(Nil) else Miss;
      }
      var table := w.tables[mt.value];
      if table.shape != c.mtShape {
        return Miss;
      }
      NoSlots(w.shapes, w.tables, mt.value);
      if c.mtSlot >= |table.slots| {
        return Panic;
      }
      var idx := TableOf(w.tables, table.slots[c.mtSlot]);
      if idx.None? || w.tables[idx.value].shape != c.index {
        return Miss;
      }
      if c.indexSlot.Some? {
        return SlotAnswer(w.tables[idx.value], c.indexSlot.value);
      }
      a := From(w, c.chain.value, idx.value, key);
    }

    /** Answers for a table of the cache's shape. */
    method Lookup(w: World, t: nat, ghost key: string) returns (a: Answer)
      requires StoreSound(w.shapes, w.tables) && t in w.tables && Sound(w.shapes, c, key)
      requires c.shape.Of? && w.tables[t].shape == Some(c.shape.shape)
      ensures a == LookupAnswer(w.tables, c, w.tables[t])
    {
      if c.slot.Some? {
        SlotReads(w.shapes, w.tables, t, key, c.slot.value);
        if w.tables[t].slots[c.slot.value] != Nil {
          return Hit(w.tables[t].slots[c.slot.value]);
        }
      }
      a := FromMetaTable(w, w.tables[t].meta, key);
    }

    /** Fills in the part of the cache that answers through metatable mt: sound for
        the key if it succeeds, and unset if it fails. */
    method FillIndex(w: World, mt: Option<nat>, key: string) returns (ok: bool)
      requires StoreSound(w.shapes, w.tables) && (mt.Some? ==> mt.value in w.tables)
      requires Sound(w.shapes, c, key) && c.mtShape.None?
      modifies this
      ensures Sound(w.shapes, c, key) && c.shape == old(c.shape) && c.slot == old(c.slot)
      ensures c.mtShape == if ok && mt.Some? then w.tables[mt.value].shape else None
      ensures Shapeless(w.tables, mt) ==> !ok
      ensures mt.None? ==> ok
      ensures ok <==> mt.None? || IndexCached(w.shapes, w.tables, mt.value, key)
    {
      if mt.None? {
        return true;
      }
      var idx, slot := IndexTable(w, mt.value);
      if idx.None? {
        return false;
      }
      var index := w.tables[idx.value].shape;
      if key in w.shapes[index.value].slots {
        c := c.(mtShape := w.tables[mt.value].shape, mtSlot := slot, index := index,
                indexSlot := Some(w.shapes[index.value].slots[key]));
        return true;
      }
      var ch := FillChain(w, idx.value, key);
      if ch.None? {
        return false;
      }
      c := c.(mtShape := w.tables[mt.value].shape, mtSlot := slot, index := index, indexSlot := None, chain := ch);
      return true;
    }

    /** The chain from the first __index table, which lacks the key. */
    method FillChain(w: World, first: nat, key: string) returns (ch: Option<Chain>)
      requires StoreSound(w.shapes, w.tables) && Walked(w.shapes, w.tables, [], first, first, key)
      requires key !in w.shapes[w.tables[first].shape.value].slots
      ensures ch.Some? ==> ChainSound(w.shapes, ch.value, key) && Lacks(w.shapes, w.tables[first].shape.value, key)
      ensures ch.Some? <==> Chains(w.shapes, w.tables, first, key, MAX_CHAIN)
    {
      hide ShapesValid, TablesValid, ChainSound, LevelSound, HasSlot;
      var levels, t := [], first;
      while true
        invariant Walked(w.shapes, w.tables, levels, first, t, key)
        invariant key !in w.shapes[w.tables[t].shape.value].slots
        invariant Chains(w.shapes, w.tables, t, key, MAX_CHAIN - |levels|) == Chains(w.shapes, w.tables, first, key, MAX_CHAIN)
        decreases MAX_CHAIN - |levels|
      {
        if w.shapes[w.tables[t].shape.value].dict {
          return None;
        }
        var meta := w.tables[t].meta;
        if meta.None? {
          WalkEnds(w.shapes, w.tables, levels, first, t, key);
          return Some(Chain(levels, None));
        }
        var next, slot := IndexTable(w, meta.value);
        if next.None? || |levels| == MAX_CHAIN {
          return None;
        }
        WalkGoesOn(w.shapes, w.tables, levels, first, t, next.value, slot, key);
        levels := levels + [Level(w.tables[meta.value].shape.value, slot, w.tables[next.value].shape.value)];
        t := next.value;
        var shape := w.shapes[w.tables[t].shape.value];
        if key in shape.slots {
          WalkFinds(w.shapes, w.tables, levels, first, t, key);
          return Some(Chain(levels, Some(shape.slots[key])));
        }
      }
    }

    /** Caches where t's shape finds key, and answers from that. */
    method Fill(w: World, t: nat, key: string, ghost strings: Option<nat>) returns (a: Answer)
      requires StoreSound(w.shapes, w.tables) && t in w.tables && Sound(w.shapes, c, key)
      modifies this
      ensures Sound(w.shapes, c, key)
      ensures a.Hit? ==> Index(w.shapes, w.tables, strings, TableRef(t), key, MAX_TAG_LOOP) == Got(a.v)
      ensures a == Panic <==> OutOfRange(w.shapes, w.tables, EMPTY, t, key)
      ensures AtString(w.shapes, w.tables[t], key) != Nil ==> a.Hit?
      ensures a.Hit? && w.tables[t].meta.None? ==> w.tables[t].shape.Some? && c.shape == Of(w.tables[t].shape.value) && c.mtShape == None
      ensures Cacheable(w.shapes, w.tables[t], key) && w.tables[t].meta.None? ==> a.Hit?
      ensures !Cacheable(w.shapes, w.tables[t], key) ==> a == Miss && c == old(c)
      ensures Cacheable(w.shapes, w.tables[t], key) ==>
        if Finds(w.shapes, w.tables, w.tables[t], key) then c.shape == Of(w.tables[t].shape.value)
        else a == Miss && c == EMPTY.(chain := c.chain)
    {
      hide ShapesValid, TablesValid, FromMeta;
      var table := w.tables[t];
      ShapeKnown(w.shapes, w.tables, t);
      if table.shape.None? {
        return Miss;
      }
      var s := table.shape.value;
      var own := key in w.shapes[s].slots;
      if !own && w.shapes[s].dict { // not Cacheable
        return Miss;
      }
      c := Cache(Of(s), if own then Some(w.shapes[s].slots[key]) else None, None, 0, None, None, c.chain);
      var ok := FillIndex(w, table.meta, key);
      if !ok && !own {
        c := EMPTY.(chain := c.chain);
        return Miss;
      }
      CacheAnswers(w.shapes, w.tables, strings, c, t, key);
      if own {
        SlotReads(w.shapes, w.tables, t, key, c.slot.value);
      }
      a := Lookup(w, t, key);
    }

    /** A table's field by a constant key, where it can be had without calling a
        metamethod. Every answer is the generic path's. */
    method GetField(w: World, v: Value, key: string, ghost strings: Option<nat>) returns (a: Answer)
      requires StoreSound(w.shapes, w.tables) && Sound(w.shapes, c, key)
      modifies this
      ensures Sound(w.shapes, c, key)
      ensures a.Hit? ==> Index(w.shapes, w.tables, strings, v, key, MAX_TAG_LOOP) == Got(a.v)
      ensures a == Panic <==> v.TableRef? && OutOfRange(w.shapes, w.tables, old(c), v.id, key)
      ensures Holds(w.shapes, w.tables, v, key) ==> a.Hit?
      ensures a == Hit(Nil) && Bare(w.tables, v) ==> CachedBare(w.tables, c, v)
      ensures Bare(w.tables, v) && Cacheable(w.shapes, w.tables[v.id], key) ==> a.Hit?
    {
      hide ShapesValid, TablesValid, FromMeta, Sound, Index, AtString, LookupAnswer;
      var t := TableOf(w.tables, v);
      if t.None? {
        return Miss;
      }
      ShapeKnown(w.shapes, w.tables, v.id);
      if w.tables[v.id].shape.Some? && c.shape == Of(w.tables[v.id].shape.value) {
        CacheAnswers(w.shapes, w.tables, strings, c, v.id, key);
        a := Lookup(w, v.id, key);
        if a != Miss {
          return;
        }
      }
      a := Fill(w, v.id, key, strings);
    }

    /** A string's field, through the string metatable mt. */
    method GetStringField(w: World, mt: Option<nat>, str: string, key: string) returns (a: Answer)
      requires StoreSound(w.shapes, w.tables) && Sound(w.shapes, c, key) && (mt.Some? ==> mt.value in w.tables)
      modifies this
      ensures Sound(w.shapes, c, key) && a != Panic
      ensures a.Hit? ==> Index(w.shapes, w.tables, mt, Text(str), key, MAX_TAG_LOOP) == Got(a.v)
    {
      hide ShapesValid, TablesValid, FromMeta;
      if mt.None? {
        return Miss;
      }
      if c.shape == Strings && c.mtShape.Some? {
        MetaAnswers(w.shapes, w.tables, mt, c, mt.value, key);
        a := FromMetaTable(w, mt, key);
        if a != Miss {
          return;
        }
      }
      c := Cache(Strings, None, None, 0, None, None, c.chain);
      var ok := FillIndex(w, mt, key);
      if !ok {
        c := EMPTY.(chain := c.chain);
        return Miss;
      }
      MetaAnswers(w.shapes, w.tables, mt, c, mt.value, key);
      a := FromMetaTable(w, mt, key);
    }

    /** Stores in a table's field by a constant key, where the key has a slot and
        no __newindex can apply. What it stores is what the manual asks for. */
    method SetField(w: World, v: Value, key: string, x: Value, ghost strings: Option<nat>) returns (done: bool)
      requires Valid(w) && Sound(w.shapes, c, key)
      modifies this, w`tables
      ensures Valid(w) && Sound(w.shapes, c, key) && (!done ==> w.tables == old(w.tables))
      ensures done ==>
        && v.TableRef? && NewIndex(w.shapes, old(w.tables), strings, v, key, MAX_TAG_LOOP) == RawSet(v.id)
        && Stored(w.shapes, old(w.tables), w.shapes, w.tables, v.id, key, x)
      ensures done <==> StoresInSlot(w.shapes, old(w.tables), v, key, x)
    {
      hide ShapesValid, TablesValid, FlagsSound, Stored;
      var t := TableOf(w.tables, v);
      if t.None? {
        return false;
      }
      ShapeKnown(w.shapes, w.tables, v.id);
      var table := w.tables[v.id];
      if table.shape.None? || (w.shapes[table.shape.value].dict && x == Nil) {
        return false;
      }
      var s := table.shape.value;
      if c.shape != Of(s) || c.slot.None? {
        if key !in w.shapes[s].slots {
          return false;
        }
        c := Cache(Of(s), Some(w.shapes[s].slots[key]), None, 0, None, None, c.chain);
      }
      var i := c.slot.value;
      SlotReads(w.shapes, w.tables, v.id, key, i);
      if table.slots[i] == Nil {
        if w.shapes[s].dict || (table.meta.Some? && NEW_INDEX !in w.tables[table.meta.value].flags) {
          return false;
        }
        FlagSays(w.shapes, w.tables, table.meta);
      }
      SetSlotAndInvalidate(w, v.id, key, i, x);
      return true;
    }
  }

  /** A metatable flagged so has no __newindex. */
  lemma FlagSays(shapes: ShapeMap, tables: TableMap, mt: Option<nat>)
    requires FlagsSound(shapes, tables) && (mt.Some? ==> mt.value in tables && NEW_INDEX in tables[mt.value].flags)
    ensures MetaField(shapes, tables, mt, EVENT_NAMES[NEW_INDEX]) == Nil
  {
  }

  method SetSlotAndInvalidate(w: World, t: nat, key: string, i: nat, x: Value)
    requires Valid(w) && t in w.tables && w.tables[t].shape.Some? && HasSlot(w.shapes, w.tables[t].shape.value, key, i)
    requires i < |w.tables[t].slots|
    requires w.shapes[w.tables[t].shape.value].dict ==> w.tables[t].slots[i] != Nil && x != Nil
    modifies w`tables
    ensures Valid(w) && Stored(w.shapes, old(w.tables), w.shapes, w.tables, t, key, x)
  {
    hide World.Sound, AtString, Evolves, FlagsSound;
    w.SetSlot(t, key, i, x, w.tables[t].dead);
    w.InvalidateTagMethodCache(t);
    forall u, k | u in w.tables
      ensures AtString(w.shapes, w.tables[u], k) == if u == t && k == key then x else AtString(w.shapes, old(w.tables)[u], k)
    {
      assert w.Read(u, k) == if u == t && k == key then x else old(w.Read(u, k));
    }
    FlagsStay(w.shapes, old(w.tables), w.shapes, w.tables, t);
  }

  predicate Holds(shapes: ShapeMap, tables: TableMap, v: Value, key: string) {
    TableOf(tables, v).Some? && AtString(shapes, tables[v.id], key) != Nil
  }

  /** The table's shape has the key, or never will. */
  predicate Cacheable(shapes: ShapeMap, t: Table, key: string) {
    t.shape.Some? && t.shape.value in shapes && (key in shapes[t.shape.value].slots || !shapes[t.shape.value].dict)
  }

  /** The key has a slot in v's table, no __newindex can apply, and storing x
      leaves a dictionary's count of nil slots alone. */
  predicate StoresInSlot(shapes: ShapeMap, tables: TableMap, v: Value, key: string, x: Value) {
    && TableOf(tables, v).Some? && tables[v.id].shape.Some? && tables[v.id].shape.value in shapes
    && key in shapes[tables[v.id].shape.value].slots
    && var dict, meta := shapes[tables[v.id].shape.value].dict, tables[v.id].meta;
    && !(dict && x == Nil)
    && (AtString(shapes, tables[v.id], key) != Nil
        || (!dict && (meta.None? || (meta.value in tables && NEW_INDEX in tables[meta.value].flags))))
  }

  predicate Bare(tables: TableMap, v: Value) {
    TableOf(tables, v).Some? && tables[v.id].meta.None?
  }

  /** The cache is for v's shape and no metatable. */
  predicate CachedBare(tables: TableMap, c: Cache, v: Value) {
    TableOf(tables, v).Some? && tables[v.id].shape.Some? && c.shape == Of(tables[v.id].shape.value) && c.mtShape == None
  }

  lemma ShapeKnown(shapes: ShapeMap, tables: TableMap, t: nat)
    requires StoreSound(shapes, tables) && t in tables
    ensures tables[t].shape.Some? ==> tables[t].shape.value in shapes
    ensures tables[t].shape.None? ==> AtString(shapes, tables[t], "") == Nil
  {
  }

  /** When getField goes out of range: a table's own field is nil or absent, its
      metatable has no shape, and the cache is for the table's shape without a
      metatable's, or will be once filled. */
  predicate OutOfRange(shapes: ShapeMap, tables: TableMap, c: Cache, t: nat, key: string) {
    && t in tables && tables[t].shape.Some? && tables[t].shape.value in shapes
    && AtString(shapes, tables[t], key) == Nil && Shapeless(tables, tables[t].meta)
    && ((c.shape == Of(tables[t].shape.value) && c.mtShape == None) || key in shapes[tables[t].shape.value].slots)
  }

  /** Levels walked from the first table to t, none but t having the key. */
  ghost predicate Walked(shapes: ShapeMap, tables: TableMap, levels: seq<Level>, first: nat, t: nat, key: string) {
    && |levels| <= MAX_CHAIN && t in tables && tables[t].shape.Some? && tables[t].shape.value in shapes
    && first in tables && tables[first].shape.Some?
    && (forall j :: 0 <= j < |levels| ==> LevelSound(shapes, levels[j]))
    && (forall j :: 0 <= j < |levels| - 1 ==> Lacks(shapes, levels[j].index, key))
    && (if levels == [] then t == first
        else tables[t].shape == Some(levels[|levels| - 1].index) && Lacks(shapes, tables[first].shape.value, key))
  }

  lemma WalkGoesOn(shapes: ShapeMap, tables: TableMap, levels: seq<Level>, first: nat, t: nat, next: nat, slot: nat, key: string)
    requires Walked(shapes, tables, levels, first, t, key) && |levels| < MAX_CHAIN
    requires Lacks(shapes, tables[t].shape.value, key)
    requires tables[t].meta.Some? && tables[t].meta.value in tables && tables[tables[t].meta.value].shape.Some?
    requires HasSlot(shapes, tables[tables[t].meta.value].shape.value, EVENT_NAMES[INDEX], slot)
    requires next in tables && tables[next].shape.Some? && tables[next].shape.value in shapes
    ensures Walked(shapes, tables,
      levels + [Level(tables[tables[t].meta.value].shape.value, slot, tables[next].shape.value)], first, next, key)
  {
  }

  lemma WalkFinds(shapes: ShapeMap, tables: TableMap, levels: seq<Level>, first: nat, t: nat, key: string)
    requires Walked(shapes, tables, levels, first, t, key) && |levels| > 0
    requires key in shapes[tables[t].shape.value].slots
    ensures ChainSound(shapes, Chain(levels, Some(shapes[tables[t].shape.value].slots[key])), key)
  {
  }

  lemma WalkEnds(shapes: ShapeMap, tables: TableMap, levels: seq<Level>, first: nat, t: nat, key: string)
    requires Walked(shapes, tables, levels, first, t, key) && Lacks(shapes, tables[t].shape.value, key)
    ensures ChainSound(shapes, Chain(levels, None), key) && Lacks(shapes, tables[first].shape.value, key)
  {
  }

  /** Two readings of one site: the first answers nil; then the table gets a
      metatable without a shape, and the second goes out of range. */
  method ReadAgain(w: World, site: Site, t: nat, mt: nat, key: string, ghost strings: Option<nat>)
    returns (first: Answer, second: Answer)
    requires w.Sound() && Sound(w.shapes, site.c, key) && t in w.tables && mt in w.tables
    requires w.tables[t].meta.None? && w.tables[mt].shape.None? && AtString(w.shapes, w.tables[t], key) == Nil
    modifies w`tables, site
    ensures first == Hit(Nil) ==> second == Panic
    ensures Cacheable(old(w.shapes), old(w.tables[t]), key) ==> first == Hit(Nil)
  {
    first := site.GetField(w, TableRef(t), key, strings);
    w.SetMetaTable(t, Some(mt));
    assert AtString(w.shapes, w.tables[t], key) == Nil by {
      assert w.Read(t, key) == old(w.Read(t, key));
    }
    second := site.GetField(w, TableRef(t), key, strings);
  }

  /** Such a site and table, from an empty state on: the table's only field was
      set and cleared. */
  method IndexedOutOfRange(hash: string -> int) returns (w: World, first: Answer, second: Answer)
    ensures first == Hit(Nil) && second == Panic
  {
    hide AtString, ShapesValid, TablesValid, Evolves;
    w := new World(hash, {});
    var t := w.NewTable();
    var mt := w.NewTable();
    w.PutString(t, "x", Number(1));
    assert w.Read(t, "x") == Number(1);
    ShapeHas(w.shapes, w.tables[t], "x");
    w.PutString(t, "x", Nil);
    assert w.Read(t, "x") == Nil;
    var site := new Site();
    first, second := ReadAgain(w, site, t, mt, "x", None);
  }

  lemma ShapeHas(shapes: ShapeMap, t: Table, key: string)
    requires AtString(shapes, t, key) != Nil
    ensures t.shape.Some? && t.shape.value in shapes && key in shapes[t.shape.value].slots
  {
  }
}
