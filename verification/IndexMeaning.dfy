/** What indexing and storing mean in terms of tables and of the fields __index and
    __newindex by name: along a chain of tables, each the next one's metatable field. */
module IndexMeaning {
  import opened Wrappers
  import opened Shapes
  import opened Lookup

  /** The field of t's metatable, nil if it has none. */
  function MetaOf(shapes: ShapeMap, tables: TableMap, t: nat, field: string): Value
    requires t in tables
  {
    if tables[t].meta.Some? && tables[t].meta.value in tables then AtString(shapes, tables[tables[t].meta.value], field) else Nil
  }

  /** Tables, each but the last without the key and with the next one in its
      metatable's field. */
  ghost predicate Follow(shapes: ShapeMap, tables: TableMap, ts: seq<nat>, key: string, field: string) {
    && |ts| > 0 && (forall i :: 0 <= i < |ts| ==> ts[i] in tables)
    && (forall i :: 0 <= i < |ts| - 1 ==>
          AtString(shapes, tables[ts[i]], key) == Nil && MetaOf(shapes, tables, ts[i], field) == TableRef(ts[i + 1]))
  }

  /** What reading the last of them gives: its field, or what a function there
      answers, or nil. */
  lemma {:induction false} ReadsLast(shapes: ShapeMap, tables: TableMap, strings: Option<nat>, ts: seq<nat>, key: string, fuel: nat)
    requires Follow(shapes, tables, ts, key, "__index") && |ts| <= fuel
    ensures
      var last := ts[|ts| - 1];
      var own, tm := AtString(shapes, tables[last], key), MetaOf(shapes, tables, last, "__index");
      var r := Index(shapes, tables, strings, TableRef(ts[0]), key, fuel);
      && (own != Nil ==> r == Got(own))
      && (own == Nil && tm == Nil ==> r == Got(Nil))
      && (own == Nil && tm.Function? ==> r == Calls(tm.id, TableRef(last)))
      && (own == Nil && tm.Number? && |ts| < fuel ==> r == IndexError(tm))
    decreases |ts|
  {
    if |ts| > 1 {
      assert TableOf(tables, TableRef(ts[0])) == Some(ts[0]);
      assert MetaOf(shapes, tables, ts[0], "__index") == TableRef(ts[0 + 1]);
      FollowOn(shapes, tables, ts, key, "__index");
      ReadsLast(shapes, tables, strings, ts[1..], key, fuel - 1);
    }
  }

  lemma FollowOn(shapes: ShapeMap, tables: TableMap, ts: seq<nat>, key: string, field: string)
    requires Follow(shapes, tables, ts, key, field) && |ts| > 1
    ensures Follow(shapes, tables, ts[1..], key, field)
  {
    var rest := ts[1..];
    forall i | 0 <= i < |rest| - 1
      ensures AtString(shapes, tables[rest[i]], key) == Nil && MetaOf(shapes, tables, rest[i], field) == TableRef(rest[i + 1])
    {
      assert MetaOf(shapes, tables, ts[i + 1], field) == TableRef(ts[i + 1 + 1]);
    }
  }

  /** Reading a field through up to 100 tables, as the generic path does. */
  lemma IndexMeans(shapes: ShapeMap, tables: TableMap, strings: Option<nat>, ts: seq<nat>, key: string)
    requires Follow(shapes, tables, ts, key, "__index") && |ts| <= 100
    ensures
      var last := ts[|ts| - 1];
      var own, tm := AtString(shapes, tables[last], key), MetaOf(shapes, tables, last, "__index");
      var r := Index(shapes, tables, strings, TableRef(ts[0]), key, MAX_TAG_LOOP);
      && (own != Nil ==> r == Got(own))
      && (own == Nil && tm == Nil ==> r == Got(Nil))
      && (own == Nil && tm.Function? ==> r == Calls(tm.id, TableRef(last)))
      && (own == Nil && tm.Number? && |ts| < 100 ==> r == IndexError(tm))
  {
    ReadsLast(shapes, tables, strings, ts, key, MAX_TAG_LOOP);
  }

  /** Through more it is an error. */
  lemma IndexLoops(shapes: ShapeMap, tables: TableMap, strings: Option<nat>, ts: seq<nat>, key: string)
    requires Follow(shapes, tables, ts, key, "__index") && |ts| > 100
    ensures Index(shapes, tables, strings, TableRef(ts[0]), key, MAX_TAG_LOOP) == TooLong
  {
    ReadsTooLong(shapes, tables, strings, ts, key, MAX_TAG_LOOP);
  }

  lemma {:induction false} ReadsTooLong(shapes: ShapeMap, tables: TableMap, strings: Option<nat>, ts: seq<nat>, key: string, fuel: nat)
    requires Follow(shapes, tables, ts, key, "__index") && |ts| > fuel
    ensures Index(shapes, tables, strings, TableRef(ts[0]), key, fuel) == TooLong
    decreases fuel
  {
    if fuel > 0 {
      assert MetaOf(shapes, tables, ts[0], "__index") == TableRef(ts[0 + 1]);
      FollowOn(shapes, tables, ts, key, "__index");
      ReadsTooLong(shapes, tables, strings, ts[1..], key, fuel - 1);
    }
  }

  /** A string is indexed by the field of the strings' metatable, and a number not
      at all. */
  lemma IndexOther(shapes: ShapeMap, tables: TableMap, strings: Option<nat>, v: Value, key: string)
    requires v.Text? || v.Number? || v.Nil?
    ensures
      var tm := if v.Text? && strings.Some? && strings.value in tables then AtString(shapes, tables[strings.value], "__index") else Nil;
      var r := Index(shapes, tables, strings, v, key, MAX_TAG_LOOP);
      && (tm == Nil ==> r == IndexError(v))
      && (tm.Function? ==> r == Calls(tm.id, v))
      && (tm.TableRef? && tm.id in tables && AtString(shapes, tables[tm.id], key) != Nil ==>
            r == Got(AtString(shapes, tables[tm.id], key)))
  {
    if v.Text? && strings.Some? && strings.value in tables {
      var tm := AtString(shapes, tables[strings.value], "__index");
      if tm.TableRef? && tm.id in tables {
        assert TableOf(tables, tm) == Some(tm.id);
        ReadsLast(shapes, tables, strings, [tm.id], key, MAX_TAG_LOOP - 1);
      }
    }
  }

  /** Two states alike in all fields but one. */
  ghost predicate AlikeBut(shapes: ShapeMap, tables: TableMap, shapes': ShapeMap, tables': TableMap, field: string) {
    && tables'.Keys == tables.Keys && (forall t :: t in tables ==> tables'[t].meta == tables[t].meta)
    && (forall t, k :: t in tables && k != field ==> AtString(shapes', tables'[t], k) == AtString(shapes, tables[t], k))
  }

  /** Reading has nothing to do with __newindex, */
  lemma {:induction false} IndexIgnores(shapes: ShapeMap, tables: TableMap, shapes': ShapeMap, tables': TableMap, strings: Option<nat>,
                                        v: Value, key: string, fuel: nat)
    requires AlikeBut(shapes, tables, shapes', tables', "__newindex") && key != "__newindex"
    ensures Index(shapes', tables', strings, v, key, fuel) == Index(shapes, tables, strings, v, key, fuel)
    decreases fuel
  {
    if fuel > 0 {
      var tm :=
        if TableOf(tables, v).Some? then MetaField(shapes, tables, tables[v.id].meta, "__index")
        else if v.Text? then MetaField(shapes, tables, strings, "__index") else Nil;
      IndexIgnores(shapes, tables, shapes', tables', strings, tm, key, fuel - 1);
    }
  }

  /** and storing nothing to do with __index. */
  lemma {:induction false} NewIndexIgnores(shapes: ShapeMap, tables: TableMap, shapes': ShapeMap, tables': TableMap,
                                           strings: Option<nat>, v: Value, key: string, fuel: nat)
    requires AlikeBut(shapes, tables, shapes', tables', "__index") && key != "__index"
    ensures NewIndex(shapes', tables', strings, v, key, fuel) == NewIndex(shapes, tables, strings, v, key, fuel)
    decreases fuel
  {
    if fuel > 0 {
      var tm :=
        if TableOf(tables, v).Some? then MetaField(shapes, tables, tables[v.id].meta, "__newindex")
        else if v.Text? then MetaField(shapes, tables, strings, "__newindex") else Nil;
      NewIndexIgnores(shapes, tables, shapes', tables', strings, tm, key, fuel - 1);
    }
  }

  /** Where storing along such tables stores: in the last one, if it has the key or
      its metatable no __newindex; or a function there is called. */
  lemma {:induction false} StoresLast(shapes: ShapeMap, tables: TableMap, strings: Option<nat>, ts: seq<nat>, key: string, fuel: nat)
    requires Follow(shapes, tables, ts, key, "__newindex") && |ts| <= fuel
    ensures
      var last := ts[|ts| - 1];
      var own, tm := AtString(shapes, tables[last], key), MetaOf(shapes, tables, last, "__newindex");
      var r := NewIndex(shapes, tables, strings, TableRef(ts[0]), key, fuel);
      && (own != Nil || tm == Nil ==> r == RawSet(last))
      && (own == Nil && tm.Function? ==> r == CallsNewIndex(tm.id, TableRef(last)))
      && (own == Nil && tm.Number? && |ts| < fuel ==> r == SetError(tm))
    decreases |ts|
  {
    if |ts| > 1 {
      assert TableOf(tables, TableRef(ts[0])) == Some(ts[0]);
      assert MetaOf(shapes, tables, ts[0], "__newindex") == TableRef(ts[0 + 1]);
      FollowOn(shapes, tables, ts, key, "__newindex");
      StoresLast(shapes, tables, strings, ts[1..], key, fuel - 1);
    }
  }

  /** Storing a field along up to 100 tables. */
  lemma NewIndexMeans(shapes: ShapeMap, tables: TableMap, strings: Option<nat>, ts: seq<nat>, key: string)
    requires Follow(shapes, tables, ts, key, "__newindex") && |ts| <= 100
    ensures
      var last := ts[|ts| - 1];
      var own, tm := AtString(shapes, tables[last], key), MetaOf(shapes, tables, last, "__newindex");
      var r := NewIndex(shapes, tables, strings, TableRef(ts[0]), key, MAX_TAG_LOOP);
      && (own != Nil || tm == Nil ==> r == RawSet(last))
      && (own == Nil && tm.Function? ==> r == CallsNewIndex(tm.id, TableRef(last)))
      && (own == Nil && tm.Number? && |ts| < 100 ==> r == SetError(tm))
  {
    StoresLast(shapes, tables, strings, ts, key, MAX_TAG_LOOP);
  }

  lemma {:induction false} StoresTooLong(shapes: ShapeMap, tables: TableMap, strings: Option<nat>, ts: seq<nat>, key: string, fuel: nat)
    requires Follow(shapes, tables, ts, key, "__newindex") && |ts| > fuel
    ensures NewIndex(shapes, tables, strings, TableRef(ts[0]), key, fuel) == SetTooLong
    decreases fuel
  {
    if fuel > 0 {
      assert MetaOf(shapes, tables, ts[0], "__newindex") == TableRef(ts[0 + 1]);
      FollowOn(shapes, tables, ts, key, "__newindex");
      StoresTooLong(shapes, tables, strings, ts[1..], key, fuel - 1);
    }
  }

  /** The generic path on such tables, whatever flags there are: it reads the field of
      the last one or calls the function in its metatable's __index. */
  method ReadAlong(w: World, strings: Option<nat>, ts: seq<nat>, key: string) returns (r: Found)
    requires Valid(w) && Follow(w.shapes, w.tables, ts, key, "__index") && |ts| <= 100
    modifies w`tables
    ensures Valid(w) && SameButFlags(old(w.tables), w.tables)
    ensures
      var last := ts[|ts| - 1];
      var own, tm := AtString(w.shapes, old(w.tables[last]), key), MetaOf(w.shapes, old(w.tables), last, "__index");
      && (own != Nil ==> r == Got(own))
      && (own == Nil && tm == Nil ==> r == Got(Nil))
      && (own == Nil && tm.Function? ==> r == Calls(tm.id, TableRef(last)))
      && (own == Nil && tm.Number? && |ts| < 100 ==> r == IndexError(tm))
  {
    hide Valid, AtString, Index, Follow;
    IndexMeans(w.shapes, w.tables, strings, ts, key);
    LastIn(w.shapes, w.tables, ts, key, "__index");
    r := TableAt(w, strings, TableRef(ts[0]), key);
  }

  lemma LastIn(shapes: ShapeMap, tables: TableMap, ts: seq<nat>, key: string, field: string)
    requires Follow(shapes, tables, ts, key, field)
    ensures |ts| > 0 && ts[|ts| - 1] in tables
  {
  }

  lemma StoresRaw(shapes: ShapeMap, tables: TableMap, t: nat, key: string)
    requires t in tables && AtString(shapes, tables[t], key) == Nil && MetaOf(shapes, tables, t, "__newindex") == Nil
    ensures StoreAt(shapes, tables, None, TableRef(t), key, MAX_TAG_LOOP) == RawSet(t)
  {
  }

  /** A concrete run: reading a field of a table whose metatable has a function in
      __index calls that function, and storing one stores it. */
  method IndexCalled(hash: string -> int) returns (w: World, t: nat, r: Found, stored: Target)
    ensures r == Calls(7, TableRef(t)) && stored == RawSet(t)
  {
    hide Valid, AtString, StoreAt;
    var mt;
    w, t, mt := Made(hash, "__index", 7);
    ghost var tables := w.tables;
    r := ReadAlong(w, None, [t], "x");
    FlagsUnread(w.shapes, tables, w.tables, t, "x");
    FlagsUnread(w.shapes, tables, w.tables, mt, "__newindex");
    StoresRaw(w.shapes, w.tables, t, "x");
    stored := SetTableAt(w, None, TableRef(t), "x", Number(1));
  }
}
