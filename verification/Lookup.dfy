/** Indexing through metatables: the generic path, and the cache of the events
    a metatable is known to lack. */
module Lookup {
  import opened Wrappers
  import opened Shapes

  const MAX_TAG_LOOP := 100

  /** The events whose absence is cached. */
  const INDEX := 0
  const NEW_INDEX := 1
  const EVENT_NAMES := ["__index", "__newindex", "__gc", "__mode", "__len", "__eq"]

  /** The table a value refers to. */
  function TableOf(tables: TableMap, v: Value): Option<nat> {
    if v.TableRef? && v.id in tables then Some(v.id) else None
  }

  /** A metatable's field. */
  function MetaField(shapes: ShapeMap, tables: TableMap, mt: Option<nat>, k: string): Value {
    if mt.Some? && mt.value in tables then AtString(shapes, tables[mt.value], k) else Nil
  }

  // ---------- What indexing means ----------

  datatype Found = Got(v: Value) | Calls(f: nat, receiver: Value) | IndexError(v: Value) | TooLong

  /** v[key], as the manual defines it, trying at most so many values. */
  function Index(shapes: ShapeMap, tables: TableMap, strings: Option<nat>, v: Value, key: string, fuel: nat): Found
    decreases fuel
  {
    if fuel == 0 then TooLong else
    var own := if TableOf(tables, v).Some? then AtString(shapes, tables[v.id], key) else Nil;
    if own != Nil then Got(own) else
    var tm :=
      if TableOf(tables, v).Some? then MetaField(shapes, tables, tables[v.id].meta, EVENT_NAMES[INDEX])
      else if v.Text? then MetaField(shapes, tables, strings, EVENT_NAMES[INDEX]) else Nil;
    if tm == Nil then (if TableOf(tables, v).Some? then Got(Nil) else IndexError(v))
    else if tm.Function? then Calls(tm.id, v)
    else Index(shapes, tables, strings, tm, key, fuel - 1)
  }

  datatype Target = RawSet(t: nat) | CallsNewIndex(f: nat, receiver: Value) | SetError(v: Value) | SetTooLong

  /** Where v[key] = x stores, as the manual defines it. */
  function NewIndex(shapes: ShapeMap, tables: TableMap, strings: Option<nat>, v: Value, key: string, fuel: nat): Target
    decreases fuel
  {
    if fuel == 0 then SetTooLong
    else if TableOf(tables, v).Some? && AtString(shapes, tables[v.id], key) != Nil then RawSet(v.id)
    else
      var tm :=
        if TableOf(tables, v).Some? then MetaField(shapes, tables, tables[v.id].meta, EVENT_NAMES[NEW_INDEX])
        else if v.Text? then MetaField(shapes, tables, strings, EVENT_NAMES[NEW_INDEX]) else Nil;
      if tm == Nil then (if TableOf(tables, v).Some? then RawSet(v.id) else SetError(v))
      else if tm.Function? then CallsNewIndex(tm.id, v)
      else NewIndex(shapes, tables, strings, tm, key, fuel - 1)
  }

  // ---------- Events known to be absent ----------

  /** Flags are only of events a table lacks. */
  ghost predicate FlagsSound(shapes: ShapeMap, tables: TableMap) {
    forall t, e :: t in tables && e in tables[t].flags ==> Absent(shapes, tables[t], e)
  }

  predicate Absent(shapes: ShapeMap, t: Table, e: nat) {
    e < |EVENT_NAMES| && AtString(shapes, t, EVENT_NAMES[e]) == Nil
  }

  ghost predicate Valid(w: World)
    reads w
  {
    w.Sound() && FlagsSound(w.shapes, w.tables)
  }

  /** Tables alike but for their flags. */
  ghost predicate SameButFlags(a: TableMap, b: TableMap) {
    a.Keys == b.Keys && forall t :: t in a ==> b[t] == a[t].(flags := b[t].flags)
  }

  lemma {:induction false} IndexSame(shapes: ShapeMap, a: TableMap, b: TableMap, strings: Option<nat>, v: Value, key: string, fuel: nat)
    requires SameButFlags(a, b)
    ensures Index(shapes, a, strings, v, key, fuel) == Index(shapes, b, strings, v, key, fuel)
    decreases fuel
  {
    if fuel > 0 {
      var tm :=
        if TableOf(a, v).Some? then MetaField(shapes, a, a[v.id].meta, EVENT_NAMES[INDEX])
        else if v.Text? then MetaField(shapes, a, strings, EVENT_NAMES[INDEX]) else Nil;
      IndexSame(shapes, a, b, strings, tm, key, fuel - 1);
    }
  }

  /** What fastTagMethod tests, shifting the wrong way round: (flags & 1) << event
      for flags & (1 << event). It is bit 0 of the flags, whatever the event. */
  predicate Hidden(flags: set<nat>, event: nat) {
    INDEX in flags
  }

  /** The tests of a byte of flags, as the program has it and as it means it. */
  lemma ShiftedMask(flags: bv8, event: nat)
    requires event < 6
    ensures (flags & 1) << event != 0 <==> flags & 1 != 0
    ensures event == INDEX ==> (flags & (1 << event) != 0 <==> (flags & 1) << event != 0)
  {
  }

  /** A metatable's field for an event, which notes that it has none. */
  method TagMethod(w: World, mt: nat, event: nat) returns (tm: Value)
    requires Valid(w) && mt in w.tables && event < |EVENT_NAMES|
    modifies w`tables
    ensures Valid(w) && SameButFlags(old(w.tables), w.tables)
    ensures tm == AtString(w.shapes, old(w.tables[mt]), EVENT_NAMES[event]) && (tm != Nil ==> w.tables == old(w.tables))
    ensures tm == Nil ==> event in w.tables[mt].flags
  {
    tm := AtString(w.shapes, w.tables[mt], EVENT_NAMES[event]);
    if tm == Nil {
      Flag(w, mt, event);
    }
  }

  method Flag(w: World, mt: nat, event: nat)
    requires Valid(w) && mt in w.tables && event < |EVENT_NAMES|
    requires AtString(w.shapes, w.tables[mt], EVENT_NAMES[event]) == Nil
    modifies w`tables
    ensures Valid(w) && SameButFlags(old(w.tables), w.tables) && event in w.tables[mt].flags
  {
    hide TablesValid, ShapesValid, Shape.Valid;
    var table := w.tables[mt].(flags := w.tables[mt].flags + {event});
    w.Relabelled(w.shapes, w.tables, mt, table);
    w.tables := w.tables[mt := table];
  }

  /** A metatable's field for an event, or nil where the flags hide it. */
  method FastTagMethod(w: World, mt: Option<nat>, event: nat) returns (tm: Value)
    requires Valid(w) && (mt.Some? ==> mt.value in w.tables) && event < |EVENT_NAMES|
    modifies w`tables
    ensures Valid(w) && SameButFlags(old(w.tables), w.tables)
    ensures tm == FastField(w.shapes, old(w.tables), mt, event) && (tm != Nil ==> w.tables == old(w.tables))
    ensures tm == Nil && mt.Some? ==> INDEX in w.tables[mt.value].flags || event in w.tables[mt.value].flags
  {
    if mt.None? || Hidden(w.tables[mt.value].flags, event) {
      return Nil;
    }
    tm := TagMethod(w, mt.value, event);
  }

  function FastField(shapes: ShapeMap, tables: TableMap, mt: Option<nat>, event: nat): Value
    requires event < |EVENT_NAMES|
  {
    if mt.None? || mt.value !in tables || Hidden(tables[mt.value].flags, event) then Nil
    else AtString(shapes, tables[mt.value], EVENT_NAMES[event])
  }

  /** It is the field, but where the metatable has that field and its flags say
      that it lacks another, __index: never for __index itself. */
  lemma FastFieldExact(shapes: ShapeMap, tables: TableMap, mt: Option<nat>, event: nat)
    requires FlagsSound(shapes, tables) && event < |EVENT_NAMES|
    ensures
      var field := MetaField(shapes, tables, mt, EVENT_NAMES[event]);
      FastField(shapes, tables, mt, event) == field <==>
        (field == Nil || INDEX !in tables[mt.value].flags)
    ensures FastField(shapes, tables, mt, INDEX) == MetaField(shapes, tables, mt, EVENT_NAMES[INDEX])
  {
  }

  // ---------- Reading and storing by the generic path ----------

  lemma FlagsUnread(shapes: ShapeMap, a: TableMap, b: TableMap, t: nat, k: string)
    requires SameButFlags(a, b) && t in a
    ensures AtString(shapes, b[t], k) == AtString(shapes, a[t], k) && b[t].meta == a[t].meta
  {
  }

  /** A table's __index, which may note that its metatable has none. */
  method IndexOf(w: World, t: nat) returns (tm: Value)
    requires Valid(w) && t in w.tables
    modifies w`tables
    ensures Valid(w) && SameButFlags(old(w.tables), w.tables)
    ensures tm == MetaField(w.shapes, old(w.tables), old(w.tables[t].meta), EVENT_NAMES[INDEX])
    ensures tm == Nil && w.tables[t].meta.Some? ==> INDEX in w.tables[w.tables[t].meta.value].flags
  {
    FastFieldExact(w.shapes, w.tables, w.tables[t].meta, INDEX);
    tm := FastTagMethod(w, w.tables[t].meta, INDEX);
  }

  /** v is a table without the key, whose metatable has no __index. */
  predicate LacksKeyAndIndex(shapes: ShapeMap, tables: TableMap, v: Value, key: string) {
    && TableOf(tables, v).Some? && AtString(shapes, tables[v.id], key) == Nil
    && tables[v.id].meta.Some? && tables[v.id].meta.value in tables
    && MetaField(shapes, tables, tables[v.id].meta, EVENT_NAMES[INDEX]) == Nil
  }

  /** tableAt, up to the metamethod it calls. */
  method TableAt(w: World, strings: Option<nat>, v: Value, key: string) returns (r: Found)
    requires Valid(w)
    modifies w`tables
    ensures Valid(w) && SameButFlags(old(w.tables), w.tables)
    ensures r == Index(w.shapes, old(w.tables), strings, v, key, MAX_TAG_LOOP)
    ensures LacksKeyAndIndex(w.shapes, old(w.tables), v, key) ==> INDEX in w.tables[w.tables[v.id].meta.value].flags
  {
    hide Valid, AtString, MetaField;
    var t, fuel := v, MAX_TAG_LOOP;
    while fuel > 0
      invariant 0 <= fuel && Valid(w) && SameButFlags(old(w.tables), w.tables)
      invariant Index(w.shapes, w.tables, strings, t, key, fuel) ==
                Index(w.shapes, old(w.tables), strings, v, key, MAX_TAG_LOOP)
      invariant if fuel == MAX_TAG_LOOP then t == v && w.tables == old(w.tables)
                else !LacksKeyAndIndex(w.shapes, old(w.tables), v, key)
    {
      ghost var before := w.tables;
      var tm;
      if TableOf(w.tables, t).Some? {
        var own := AtString(w.shapes, w.tables[t.id], key);
        if own != Nil {
          return Got(own);
        }
        tm := IndexOf(w, t.id);
        if tm == Nil {
          return Got(Nil);
        }
      } else {
        tm := if t.Text? then MetaField(w.shapes, w.tables, strings, EVENT_NAMES[INDEX]) else Nil;
        if tm == Nil {
          return IndexError(t);
        }
      }
      if tm.Function? {
        return Calls(tm.id, t);
      }
      IndexSame(w.shapes, before, w.tables, strings, tm, key, fuel - 1);
      t, fuel := tm, fuel - 1;
    }
    return TooLong;
  }

  /** A raw store, after which no event is known to be absent. */
  method Store(w: World, t: nat, key: string, v: Value)
    requires Valid(w) && t in w.tables
    modifies w
    ensures Valid(w) && Stored(old(w.shapes), old(w.tables), w.shapes, w.tables, t, key, v)
  {
    hide World.Sound, AtString, Evolves;
    w.PutString(t, key, v);
    w.InvalidateTagMethodCache(t);
    forall u, k | u in w.tables
      ensures AtString(w.shapes, w.tables[u], k) == if u == t && k == key then v else old(AtString(w.shapes, w.tables[u], k))
    {
      assert w.Read(u, k) == if u == t && k == key then v else old(w.Read(u, k));
    }
  }

  /** A store in a field that holds a value. */
  method TryStore(w: World, t: nat, key: string, v: Value) returns (done: bool)
    requires Valid(w) && t in w.tables
    modifies w`tables
    ensures Valid(w) && done == (AtString(w.shapes, old(w.tables[t]), key) != Nil)
    ensures if done then Stored(w.shapes, old(w.tables), w.shapes, w.tables, t, key, v) else w.tables == old(w.tables)
  {
    hide World.Sound, AtString, Evolves, FlagsSound;
    done := w.TryPut(t, key, v);
    if done {
      w.InvalidateTagMethodCache(t);
      forall u, k | u in w.tables
        ensures AtString(w.shapes, w.tables[u], k) == if u == t && k == key then v else AtString(w.shapes, old(w.tables)[u], k)
      {
        assert w.Read(u, k) == if u == t && k == key then v else old(w.Read(u, k));
      }
      FlagsStay(w.shapes, old(w.tables), w.shapes, w.tables, t);
    }
    assert done == (old(w.Read(t, key)) != Nil);
  }

  lemma FlagsStay(shapes: ShapeMap, tables: TableMap, shapes': ShapeMap, tables': TableMap, t: nat)
    requires FlagsSound(shapes, tables) && tables'.Keys == tables.Keys
    requires forall u :: u in tables && u != t ==> tables'[u].flags == tables[u].flags
    requires forall u, k :: u in tables && u != t ==> AtString(shapes', tables'[u], k) == AtString(shapes, tables[u], k)
    requires t in tables ==> tables'[t].flags == {}
    ensures FlagsSound(shapes', tables')
  {
  }

  /** From the old tables to the new, t's field has been set, and no other. */
  ghost predicate Stored(shapes: ShapeMap, tables: TableMap, shapes': ShapeMap, tables': TableMap, t: nat, key: string, v: Value) {
    && Evolves(shapes, shapes') && tables'.Keys == tables.Keys && t in tables
    && (forall u, k :: u in tables ==>
          AtString(shapes', tables'[u], k) == if u == t && k == key then v else AtString(shapes, tables[u], k))
    && (forall u :: u in tables ==> tables'[u].meta == tables[u].meta)
    && (forall u :: u in tables && u != t ==> tables'[u] == tables[u])
  }

  /** Where the generic path stores, by the fields that flags do not hide. */
  function StoreAt(shapes: ShapeMap, tables: TableMap, strings: Option<nat>, v: Value, key: string, fuel: nat): Target
    decreases fuel
  {
    if fuel == 0 then SetTooLong
    else if TableOf(tables, v).Some? && AtString(shapes, tables[v.id], key) != Nil then RawSet(v.id)
    else
      var tm :=
        if TableOf(tables, v).Some? then FastField(shapes, tables, tables[v.id].meta, NEW_INDEX)
        else if v.Text? then MetaField(shapes, tables, strings, EVENT_NAMES[NEW_INDEX]) else Nil;
      if tm == Nil then (if TableOf(tables, v).Some? then RawSet(v.id) else SetError(v))
      else if tm.Function? then CallsNewIndex(tm.id, v)
      else StoreAt(shapes, tables, strings, tm, key, fuel - 1)
  }

  /** On the way to where v[key] = x should store is a table without the key
      whose metatable has __newindex, and is known to lack __index. */
  predicate Misled(shapes: ShapeMap, tables: TableMap, strings: Option<nat>, v: Value, key: string, fuel: nat)
    decreases fuel
  {
    && fuel > 0 && (TableOf(tables, v).Some? ==> AtString(shapes, tables[v.id], key) == Nil)
    && var tm :=
      if TableOf(tables, v).Some? then MetaField(shapes, tables, tables[v.id].meta, EVENT_NAMES[NEW_INDEX])
      else if v.Text? then MetaField(shapes, tables, strings, EVENT_NAMES[NEW_INDEX]) else Nil;
    && tm != Nil
    && ((TableOf(tables, v).Some? && INDEX in tables[tables[v.id].meta.value].flags)
        || (!tm.Function? && Misled(shapes, tables, strings, tm, key, fuel - 1)))
  }

  /** A table with __newindex and without the key is never stored in. */
  lemma {:induction false} NeverRaw(shapes: ShapeMap, tables: TableMap, strings: Option<nat>, t: nat, v: Value, key: string, fuel: nat)
    requires t in tables && AtString(shapes, tables[t], key) == Nil
    requires MetaField(shapes, tables, tables[t].meta, EVENT_NAMES[NEW_INDEX]) != Nil
    ensures NewIndex(shapes, tables, strings, v, key, fuel) != RawSet(t)
    decreases fuel
  {
    if fuel > 0 {
      var tm :=
        if TableOf(tables, v).Some? then MetaField(shapes, tables, tables[v.id].meta, EVENT_NAMES[NEW_INDEX])
        else if v.Text? then MetaField(shapes, tables, strings, EVENT_NAMES[NEW_INDEX]) else Nil;
      NeverRaw(shapes, tables, strings, t, tm, key, fuel - 1);
    }
  }

  /** The generic path stores where the manual says just where it is not
      misled: reading an absent field through a metatable that has only
      __newindex makes later stores ignore it. */
  lemma {:induction false} StoreAtExact(shapes: ShapeMap, tables: TableMap, strings: Option<nat>, v: Value, key: string, fuel: nat)
    requires FlagsSound(shapes, tables)
    ensures StoreAt(shapes, tables, strings, v, key, fuel) == NewIndex(shapes, tables, strings, v, key, fuel) <==>
            !Misled(shapes, tables, strings, v, key, fuel)
    decreases fuel
  {
    if fuel > 0 && TableOf(tables, v).Some? && AtString(shapes, tables[v.id], key) == Nil {
      var meta := tables[v.id].meta;
      var tm := MetaField(shapes, tables, meta, EVENT_NAMES[NEW_INDEX]);
      FastFieldExact(shapes, tables, meta, NEW_INDEX);
      if tm != Nil {
        NeverRaw(shapes, tables, strings, v.id, tm, key, fuel - 1);
        if !tm.Function? {
          StoreAtExact(shapes, tables, strings, tm, key, fuel - 1);
        }
      }
    } else if fuel > 0 && v.Text? {
      StoreAtExact(shapes, tables, strings, MetaField(shapes, tables, strings, EVENT_NAMES[NEW_INDEX]), key, fuel - 1);
    }
  }

  /** setTableAt, up to the metamethod it calls. */
  method SetTableAt(w: World, strings: Option<nat>, v: Value, key: string, x: Value) returns (r: Target)
    requires Valid(w)
    modifies w
    ensures Valid(w) && r == StoreAt(old(w.shapes), old(w.tables), strings, v, key, MAX_TAG_LOOP)
    ensures !r.RawSet? ==> w.shapes == old(w.shapes) && w.tables == old(w.tables)
    ensures r.RawSet? ==>
      exists flagged :: SameButFlags(old(w.tables), flagged) && Stored(old(w.shapes), flagged, w.shapes, w.tables, r.t, key, x)
  {
    hide Valid, AtString, FastField, Stored;
    var t, fuel := v, MAX_TAG_LOOP;
    while fuel > 0
      invariant 0 <= fuel && Valid(w) && w.shapes == old(w.shapes) && w.tables == old(w.tables)
      invariant StoreAt(w.shapes, w.tables, strings, t, key, fuel) == StoreAt(w.shapes, w.tables, strings, v, key, MAX_TAG_LOOP)
    {
      var tm;
      if TableOf(w.tables, t).Some? {
        var done := TryStore(w, t.id, key, x);
        if done {
          return RawSet(t.id);
        }
        tm := NewIndexOf(w, t.id);
        if tm == Nil {
          ghost var flagged := w.tables;
          Store(w, t.id, key, x);
          assert Stored(old(w.shapes), flagged, w.shapes, w.tables, t.id, key, x);
          return RawSet(t.id);
        }
      } else {
        tm := if t.Text? then MetaField(w.shapes, w.tables, strings, EVENT_NAMES[NEW_INDEX]) else Nil;
        if tm == Nil {
          return SetError(t);
        }
      }
      if tm.Function? {
        return CallsNewIndex(tm.id, t);
      }
      t, fuel := tm, fuel - 1;
    }
    return SetTooLong;
  }

  /** A table's __newindex: where it has one, no flags change. */
  method NewIndexOf(w: World, t: nat) returns (tm: Value)
    requires Valid(w) && t in w.tables
    modifies w`tables
    ensures Valid(w) && SameButFlags(old(w.tables), w.tables) && (tm != Nil ==> w.tables == old(w.tables))
    ensures tm == FastField(w.shapes, old(w.tables), old(w.tables[t].meta), NEW_INDEX)
  {
    tm := FastTagMethod(w, w.tables[t].meta, NEW_INDEX);
  }

  /** Once a field absent from a table has been read, through a metatable with
      __newindex and no __index, storing an absent field is a raw store, where
      the manual has __newindex called. */
  method ReadThenStore(w: World, strings: Option<nat>, t: nat, absent: string, key: string, x: Value) returns (stored: Target)
    requires Valid(w) && LacksKeyAndIndex(w.shapes, w.tables, TableRef(t), absent)
    requires AtString(w.shapes, w.tables[t], key) == Nil
    requires MetaField(w.shapes, w.tables, w.tables[t].meta, EVENT_NAMES[NEW_INDEX]).Function?
    modifies w
    ensures stored == RawSet(t)
    ensures NewIndex(old(w.shapes), old(w.tables), strings, TableRef(t), key, MAX_TAG_LOOP).CallsNewIndex?
  {
    hide Valid, AtString;
    var _ := TableAt(w, strings, TableRef(t), absent);
    FlagsUnread(w.shapes, old(w.tables), w.tables, t, key);
    stored := SetTableAt(w, strings, TableRef(t), key, x);
  }

  /** A new table, and a metatable for it with one function in one field. */
  method Made(hash: string -> int, field: string, f: nat) returns (w: World, t: nat, mt: nat)
    ensures fresh(w) && Valid(w) && t in w.tables && mt in w.tables && t != mt && w.tables[t].meta == Some(mt)
    ensures forall k :: AtString(w.shapes, w.tables[t], k) == Nil
    ensures forall k :: AtString(w.shapes, w.tables[mt], k) == if k == field then Function(f) else Nil
  {
    hide AtString, ShapesValid, TablesValid, Evolves;
    w := new World(hash, {});
    t := w.NewTable();
    mt := w.NewTable();
    NoKeys(w.shapes, w.tables[t]);
    NoKeys(w.shapes, w.tables[mt]);
    w.PutString(mt, field, Function(f));
    w.SetMetaTable(t, Some(mt));
    forall k
      ensures AtString(w.shapes, w.tables[t], k) == Nil
      ensures AtString(w.shapes, w.tables[mt], k) == if k == field then Function(f) else Nil
    {
      assert w.Read(t, k) == Nil && w.Read(mt, k) == if k == field then Function(f) else Nil;
    }
    assert FlagsSound(w.shapes, w.tables);
  }

  /** Such a table and store, from an empty state on. */
  method IgnoredNewIndex(hash: string -> int)
    returns (w: World, t: nat, stored: Target, ghost shapes: ShapeMap, ghost tables: TableMap)
    ensures stored == RawSet(t) && NewIndex(shapes, tables, None, TableRef(t), "b", MAX_TAG_LOOP) == CallsNewIndex(0, TableRef(t))
    ensures t in tables && tables[t].meta.Some? && tables[t].meta.value in tables
    ensures AtString(shapes, tables[tables[t].meta.value], "__newindex") == Function(0)
  {
    hide AtString, Valid;
    var mt;
    w, t, mt := Made(hash, "__newindex", 0);
    shapes, tables := w.shapes, w.tables;
    stored := ReadThenStore(w, None, t, "a", "b", Number(1));
  }

  lemma NoKeys(shapes: ShapeMap, t: Table)
    requires t.shape.None?
    ensures forall k :: AtString(shapes, t, k) == Nil
  {
  }
}
