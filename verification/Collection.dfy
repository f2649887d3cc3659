/** A whole collection: weak clearing before and after resurrection, and the
    queues of objects with finalizers. */
module Collection {
  import opened Wrappers
  import opened Collector

  // ---------- What a collection does to weak tables ----------

  /** A collection of the heap before: m1 was reached from the roots, and m2
      after resurrecting the finalizable objects not in m1. Weak values are
      cleared before that and after, and weak keys only after. */
  ghost predicate Collected(before: Heap, roots: set<nat>, finalizable: seq<nat>, m1: set<nat>, m2: set<nat>, after: Heap) {
    && IsReach(before, roots, m1)
    && var h1 := Sweep(before, ValueWeak(before, m1), m1, false, true);
    && IsReach(h1, m1 + Elements(Dying(finalizable, m1)), m2)
    && var h2 := Sweep(h1, KeyWeak(h1, m2), m2, true, false);
    && after == Sweep(h2, ValueWeak(h2, m2), m2, false, true)
  }

  /** The finalizable objects reached, and those not, in order. */
  function Kept(objects: seq<nat>, marked: set<nat>): (r: seq<nat>)
    ensures forall o :: o in r <==> o in objects && o in marked
  {
    if |objects| == 0 then []
    else
      var rest, o := Kept(objects[..|objects| - 1], marked), objects[|objects| - 1];
      assert objects == objects[..|objects| - 1] + [o];
      if o in marked then rest + [o] else rest
  }

  function Dying(objects: seq<nat>, marked: set<nat>): (r: seq<nat>)
    ensures forall o :: o in r <==> o in objects && o !in marked
  {
    if |objects| == 0 then []
    else
      var rest, o := Dying(objects[..|objects| - 1], marked), objects[|objects| - 1];
      assert objects == objects[..|objects| - 1] + [o];
      if o in marked then rest else rest + [o]
  }

  function Reverse(s: seq<nat>): (r: seq<nat>)
    ensures forall o :: o in r <==> o in s
  {
    if |s| == 0 then [] else [s[|s| - 1]] + Reverse(s[..|s| - 1])
  }

  /** The letter is in the __mode of t's metatable. */
  predicate HasMode(heap: Heap, t: nat, letter: char) {
    && t in heap && heap[t].Table? && heap[t].meta.Some? && heap[t].meta.value in heap
    && heap[heap[t].meta.value].Table? && letter in heap[heap[t].meta.value].mode
  }

  /** Both letters make a table weak in both ways, each alone in one. */
  lemma WeaknessByMode(heap: Heap, t: nat)
    ensures WeaknessOf(heap, t) == AllWeak <==> HasMode(heap, t, 'k') && HasMode(heap, t, 'v')
    ensures WeaknessOf(heap, t) == WeakKeys <==> HasMode(heap, t, 'k') && !HasMode(heap, t, 'v')
    ensures WeaknessOf(heap, t) == WeakValues <==> !HasMode(heap, t, 'k') && HasMode(heap, t, 'v')
    ensures WeaknessOf(heap, t) == Strong <==> !HasMode(heap, t, 'k') && !HasMode(heap, t, 'v')
  {
  }

  /** What a table keeps alive by itself: its metatable, its keys unless there is a
      'k', and its values if there is neither letter. */
  lemma KeepsByMode(heap: Heap, t: nat, v: Value)
    requires t in heap && heap[t].Table?
    ensures
      Keeps(heap, t, v) <==>
        || (heap[t].meta.Some? && v == Obj(heap[t].meta.value))
        || (!HasMode(heap, t, 'k') && exists i :: 0 <= i < |heap[t].entries| && heap[t].entries[i].0 == v)
        || (!HasMode(heap, t, 'k') && !HasMode(heap, t, 'v') &&
            exists i :: 0 <= i < |heap[t].entries| && heap[t].entries[i].1 == v)
  {
    WeaknessByMode(heap, t);
  }

  /** What is reached of the entries of a reached table: without 'k' every key,
      without either letter every value, and with 'k' alone the values of the keys
      reached. Only objects have to be reached. */
  lemma ReachedByMode(heap: Heap, roots: set<nat>, m: set<nat>, t: nat, i: nat)
    requires IsReach(heap, roots, m) && t in m && t in heap && heap[t].Table? && i < |heap[t].entries|
    ensures
      var (key, value) := heap[t].entries[i];
      && (!HasMode(heap, t, 'k') && key.Obj? ==> key.id in m)
      && (!HasMode(heap, t, 'k') && !HasMode(heap, t, 'v') && value.Obj? ==> value.id in m)
      && (HasMode(heap, t, 'k') && !HasMode(heap, t, 'v') && (key.Obj? ==> key.id in m) && value.Obj? ==> value.id in m)
  {
    WeaknessByMode(heap, t);
    EntryReached(heap, m, t, i);
  }

  /** Exactly these entries go: of reached tables with a 'v' those whose values were
      not reached, before resurrection if the table was reached then; and of reached
      tables with a 'k' those whose keys were not reached even after it. */
  lemma CollectedEntries(before: Heap, roots: set<nat>, finalizable: seq<nat>, m1: set<nat>, m2: set<nat>, after: Heap,
                         t: nat, e: (Value, Value))
    requires Collected(before, roots, finalizable, m1, m2, after) && t in before && before[t].Table?
    ensures t in after && after[t].Table?
    ensures e in after[t].entries <==>
      && e in before[t].entries
      && (t in m2 && HasMode(before, t, 'v') && e.1.Obj? ==> e.1.id in if t in m1 then m1 else m2)
      && (t in m2 && HasMode(before, t, 'k') && e.0.Obj? ==> e.0.id in m2)
  {
    WeaknessByMode(before, t);
    var h1 := Sweep(before, ValueWeak(before, m1), m1, false, true);
    var h2 := Sweep(h1, KeyWeak(h1, m2), m2, true, false);
    hide Sweep, IsReach, WeaknessOf, Surviving, Dying, HasMode;
    SweptEntry(before, ValueWeak(before, m1), m1, false, true, t, e);
    SweptEntry(h1, KeyWeak(h1, m2), m2, true, false, t, e);
    SweptEntry(h2, ValueWeak(h2, m2), m2, false, true, t, e);
    ReachGrows(h1, m1 + Elements(Dying(finalizable, m1)), m2);
  }

  lemma ReachGrows(heap: Heap, roots: set<nat>, m: set<nat>)
    requires IsReach(heap, roots, m)
    ensures roots <= m
  {
  }

  lemma SweptEntry(heap: Heap, tables: set<nat>, marked: set<nat>, byKey: bool, byValue: bool, t: nat, e: (Value, Value))
    requires t in heap && heap[t].Table?
    ensures
      var swept := Sweep(heap, tables, marked, byKey, byValue);
      && t in swept && swept[t].Table? && WeaknessOf(swept, t) == WeaknessOf(heap, t)
      && (e in swept[t].entries <==> e in heap[t].entries && (t in tables ==> Stays(e, marked, byKey, byValue)))
  {
  }

  /** Clearing weak values first does not change what is resurrected: m2 is
      what the roots and the dying objects reach in the heap as it was. */
  lemma ResurrectionReach(before: Heap, roots: set<nat>, finalizable: seq<nat>, m1: set<nat>, m2: set<nat>, after: Heap)
    requires Collected(before, roots, finalizable, m1, m2, after)
    ensures IsReach(before, roots + Elements(Dying(finalizable, m1)), m2)
  {
    var dying := Elements(Dying(finalizable, m1));
    var h1 := Sweep(before, ValueWeak(before, m1), m1, false, true);
    ClosedBefore(before, m1, m2);
    forall s | Bounds(before, roots + dying, s)
      ensures m2 <= s
    {
      assert Bounds(before, roots, s);
      ClosedAfter(before, m1, s);
      assert Bounds(h1, m1 + dying, s);
    }
  }

  /** A set closed once values are cleared was closed before. */
  lemma ClosedBefore(before: Heap, m1: set<nat>, s: set<nat>)
    requires Closed(before, m1) && m1 <= s && Closed(Sweep(before, ValueWeak(before, m1), m1, false, true), s)
    ensures Closed(before, s)
  {
    var tables := ValueWeak(before, m1);
    var h1 := Sweep(before, tables, m1, false, true);
    forall o | o in s
      ensures o in before && Followed(before, s, o) && Ephemeral(before, s, o)
    {
      SweptWeakness(before, tables, m1, false, true, o);
      assert Followed(h1, s, o) && Ephemeral(h1, s, o);
      if o in tables {
        assert Followed(before, m1, o);
      } else {
        assert h1[o] == before[o];
        forall v | Keeps(before, o, v)
          ensures Reached(s, v)
        {
          assert Keeps(h1, o, v);
        }
      }
    }
  }

  /** A set closed before stays closed once values are cleared. */
  lemma ClosedAfter(before: Heap, m1: set<nat>, s: set<nat>)
    requires Closed(before, s)
    ensures Closed(Sweep(before, ValueWeak(before, m1), m1, false, true), s)
  {
    var tables := ValueWeak(before, m1);
    forall o | o in s
      ensures o in before && Followed(Sweep(before, tables, m1, false, true), s, o)
      ensures Ephemeral(Sweep(before, tables, m1, false, true), s, o)
    {
      assert Followed(before, s, o) && Ephemeral(before, s, o);
      SweptWeakness(before, tables, m1, false, true, o);
      SweptFollowed(before, tables, m1, false, true, s, o);
    }
  }

  /** What an object refers to at all, weakly or not. */
  predicate RefersTo(heap: Heap, o: nat, v: Value)
    requires o in heap
  {
    match heap[o]
    case Table(meta, _, _, entries) =>
      (meta.Some? && v == Obj(meta.value)) || exists i :: 0 <= i < |entries| && (entries[i].0 == v || entries[i].1 == v)
    case _ => Keeps(heap, o, v)
  }

  /** Nothing dangles: after a collection what is reached refers, even weakly,
      only to what is reached, so that all the rest can be freed. */
  lemma NothingDangles(before: Heap, roots: set<nat>, finalizable: seq<nat>, m1: set<nat>, m2: set<nat>, after: Heap,
                       o: nat, v: Value)
    requires Collected(before, roots, finalizable, m1, m2, after) && o in m2 && o in after && RefersTo(after, o, v)
    ensures Reached(m2, v)
  {
    ResurrectionReach(before, roots, finalizable, m1, m2, after);
    assert m1 <= m2;
    assert Followed(before, m2, o) && Ephemeral(before, m2, o);
    if after[o].Table? {
      var entries := after[o].entries;
      if i :| 0 <= i < |entries| && (entries[i].0 == v || entries[i].1 == v) {
        CollectedEntries(before, roots, finalizable, m1, m2, after, o, entries[i]);
        var j :| 0 <= j < |before[o].entries| && before[o].entries[j] == entries[i];
        EntryReached(before, m2, o, j);
      } else {
        assert Keeps(before, o, v);
      }
    } else {
      assert after[o] == before[o];
      assert Keeps(before, o, v);
    }
  }

  /** Of an entry of a reached table, what its table does not hold weakly is
      reached, and an ephemeron's value if its key is. */
  lemma EntryReached(heap: Heap, m: set<nat>, t: nat, i: nat)
    requires t in heap && heap[t].Table? && Followed(heap, m, t) && Ephemeral(heap, m, t) && i < |heap[t].entries|
    ensures WeaknessOf(heap, t) in {Strong, WeakValues} ==> Reached(m, heap[t].entries[i].0)
    ensures WeaknessOf(heap, t) == Strong ==> Reached(m, heap[t].entries[i].1)
    ensures WeaknessOf(heap, t) == WeakKeys && Reached(m, heap[t].entries[i].0) ==> Reached(m, heap[t].entries[i].1)
  {
  }
}
