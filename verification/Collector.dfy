/** Marking with weak tables and ephemerons: what a Lua collection reaches. */
module Collector {
  import opened Wrappers

  /** A value: an object the collector tracks, or anything else. */
  datatype Value = Obj(id: nat) | Plain(tag: int)

  /** What an object refers to. A table's mode and gc are its own __mode field
      and whether it has a __gc field, for the tables whose metatable it is. */
  datatype Object =
    | Table(meta: Option<nat>, mode: string, gc: bool, entries: seq<(Value, Value)>)
    | Closure(upValues: seq<Value>)
    | UserData(meta: Option<nat>, values: seq<Value>)
    | Thread(stack: seq<Value>)

  type Heap = map<nat, Object>

  // ---------- Weakness ----------

  /** A table's weakness, as its metatable's __mode says. */
  datatype Weakness = Strong | WeakKeys | WeakValues | AllWeak

  function WeaknessOf(heap: Heap, t: nat): Weakness {
    if t !in heap || !heap[t].Table? || heap[t].meta.None? || heap[t].meta.value !in heap then Strong
    else match heap[heap[t].meta.value]
      case Table(_, mode, _, _) =>
        if 'k' in mode then (if 'v' in mode then AllWeak else WeakKeys)
        else if 'v' in mode then WeakValues else Strong
      case _ => Strong
  }

  /** The values that object o keeps alive by itself. */
  predicate Keeps(heap: Heap, o: nat, v: Value)
    requires o in heap
  {
    match heap[o]
    case Closure(upValues) => v in upValues
    case UserData(meta, values) => (meta.Some? && v == Obj(meta.value)) || v in values
    case Thread(stack) => v in stack
    case Table(meta, _, _, entries) =>
      || (meta.Some? && v == Obj(meta.value))
      || (match WeaknessOf(heap, o)
          case Strong => exists i :: 0 <= i < |entries| && (entries[i].0 == v || entries[i].1 == v)
          case WeakValues => exists i :: 0 <= i < |entries| && entries[i].0 == v
          case _ => false)
  }

  /** Every object referred to exists. */
  ghost predicate WellFormed(heap: Heap) {
    && (forall o, v :: o in heap && Keeps(heap, o, v) && v.Obj? ==> v.id in heap)
    && (forall o, i :: o in heap && heap[o].Table? && 0 <= i < |heap[o].entries| ==>
          InHeap(heap, heap[o].entries[i].0) && InHeap(heap, heap[o].entries[i].1))
  }

  predicate InHeap(heap: Heap, v: Value) {
    v.Obj? ==> v.id in heap
  }

  /** A value that is no object counts as reached. */
  predicate Reached(marked: set<nat>, v: Value) {
    v.Obj? ==> v.id in marked
  }

  /** All that o keeps alive by itself is reached. */
  ghost predicate Followed(heap: Heap, marked: set<nat>, o: nat)
    requires o in heap
  {
    forall v :: Keeps(heap, o, v) ==> Reached(marked, v)
  }

  /** An ephemeron table's values are reached where their keys are. */
  ghost predicate Ephemeral(heap: Heap, marked: set<nat>, o: nat)
    requires o in heap
  {
    heap[o].Table? && WeaknessOf(heap, o) == WeakKeys ==>
      forall i :: 0 <= i < |heap[o].entries| && Reached(marked, heap[o].entries[i].0) ==> Reached(marked, heap[o].entries[i].1)
  }

  /** A set closed under strong references and the ephemeron rule. */
  ghost predicate Closed(heap: Heap, s: set<nat>) {
    forall o :: o in s ==> o in heap && Followed(heap, s, o) && Ephemeral(heap, s, o)
  }

  /** A closed set with the roots. */
  ghost predicate Bounds(heap: Heap, roots: set<nat>, s: set<nat>) {
    roots <= s && Closed(heap, s)
  }

  /** m is what the roots reach: the least closed set that has them. */
  ghost predicate IsReach(heap: Heap, roots: set<nat>, m: set<nat>) {
    && Bounds(heap, roots, m)
    && (forall s :: Bounds(heap, roots, s) ==> m <= s)
  }

  lemma ReachUnique(heap: Heap, roots: set<nat>, m: set<nat>, m': set<nat>)
    requires IsReach(heap, roots, m) && IsReach(heap, roots, m')
    ensures m == m'
  {
  }

  // ---------- Weak entries ----------

  /** Whether an entry stays, of a table cleared by its keys or values. */
  predicate Stays(entry: (Value, Value), marked: set<nat>, byKey: bool, byValue: bool) {
    (byKey ==> Reached(marked, entry.0)) && (byValue ==> Reached(marked, entry.1))
  }

  /** The entries that stay, in order. */
  function Surviving(entries: seq<(Value, Value)>, marked: set<nat>, byKey: bool, byValue: bool): (r: seq<(Value, Value)>)
    ensures forall e :: e in r <==> e in entries && Stays(e, marked, byKey, byValue)
    ensures |r| <= |entries|
  {
    if |entries| == 0 then []
    else
      var e := entries[|entries| - 1];
      var rest := Surviving(entries[..|entries| - 1], marked, byKey, byValue);
      assert entries == entries[..|entries| - 1] + [e];
      if Stays(e, marked, byKey, byValue) then rest + [e] else rest
  }

  /** The heap with the entries of some tables cleared. */
  function Sweep(heap: Heap, tables: set<nat>, marked: set<nat>, byKey: bool, byValue: bool): Heap {
    map o | o in heap :: if o in tables && heap[o].Table?
                         then heap[o].(entries := Surviving(heap[o].entries, marked, byKey, byValue)) else heap[o]
  }

  function Elements(list: seq<nat>): set<nat> {
    set t | t in list
  }

  /** The reached tables with weak values, and those with weak keys. */
  ghost function ValueWeak(heap: Heap, marked: set<nat>): set<nat> {
    set o | o in marked && o in heap && heap[o].Table? && WeaknessOf(heap, o) in {WeakValues, AllWeak}
  }

  ghost function KeyWeak(heap: Heap, marked: set<nat>): set<nat> {
    set o | o in marked && o in heap && heap[o].Table? && WeaknessOf(heap, o) in {WeakKeys, AllWeak}
  }

  lemma SweptWeakness(heap: Heap, tables: set<nat>, marked: set<nat>, byKey: bool, byValue: bool, o: nat)
    ensures WeaknessOf(Sweep(heap, tables, marked, byKey, byValue), o) == WeaknessOf(heap, o)
  {
  }

  /** Clearing entries only lessens what objects keep. */
  lemma SweptKeeps(heap: Heap, tables: set<nat>, marked: set<nat>, byKey: bool, byValue: bool, o: nat, v: Value)
    requires o in heap && Keeps(Sweep(heap, tables, marked, byKey, byValue), o, v)
    ensures Keeps(heap, o, v)
  {
    SweptWeakness(heap, tables, marked, byKey, byValue, o);
    if o in tables && heap[o].Table? && !(heap[o].meta.Some? && v == Obj(heap[o].meta.value)) {
      var swept := Surviving(heap[o].entries, marked, byKey, byValue);
      var i :| 0 <= i < |swept| && (swept[i].0 == v || (WeaknessOf(heap, o) == Strong && swept[i].1 == v));
      assert swept[i] in heap[o].entries;
    }
  }

  lemma SweptWellFormed(heap: Heap, tables: set<nat>, marked: set<nat>, byKey: bool, byValue: bool)
    requires WellFormed(heap)
    ensures WellFormed(Sweep(heap, tables, marked, byKey, byValue))
  {
    var swept := Sweep(heap, tables, marked, byKey, byValue);
    forall o, v | o in swept && Keeps(swept, o, v) && v.Obj?
      ensures v.id in swept
    {
      SweptKeeps(heap, tables, marked, byKey, byValue, o, v);
    }
    forall o, i | o in swept && swept[o].Table? && 0 <= i < |swept[o].entries|
      ensures InHeap(swept, swept[o].entries[i].0) && InHeap(swept, swept[o].entries[i].1)
    {
      assert swept[o].entries[i] in heap[o].entries;
    }
  }

  /** Clearing keeps what has been traversed so. */
  lemma SweptFollowed(heap: Heap, tables: set<nat>, marked: set<nat>, byKey: bool, byValue: bool, s: set<nat>, o: nat)
    requires o in heap && Followed(heap, s, o)
    ensures Followed(Sweep(heap, tables, marked, byKey, byValue), s, o)
  {
    var swept := Sweep(heap, tables, marked, byKey, byValue);
    forall v | Keeps(swept, o, v)
      ensures Reached(s, v)
    {
      SweptKeeps(heap, tables, marked, byKey, byValue, o, v);
    }
  }

  /** Clearing two lists of tables clears both. */
  lemma SweepBoth(heap: Heap, a: set<nat>, b: set<nat>, marked: set<nat>, byKey: bool, byValue: bool)
    requires a !! b
    ensures Sweep(Sweep(heap, a, marked, byKey, byValue), b, marked, byKey, byValue) == Sweep(heap, a + b, marked, byKey, byValue)
  {
  }

  /** A list of traversed tables holds marked tables of one weakness, once
      each. */
  ghost predicate ListValid(heap: Heap, marked: set<nat>, gray: seq<nat>, list: seq<nat>, w: Weakness) {
    && (forall t :: t in list ==>
          t in marked && t in heap && heap[t].Table? && WeaknessOf(heap, t) == w && t !in gray)
    && (forall i, j :: 0 <= i < j < |list| ==> list[i] != list[j])
  }

  // ---------- The collector ----------

  /** The marking phase of a Lua collection. */
  class Marker {
    var heap: Heap
    ghost var roots: set<nat>
    var marked: set<nat>
    var gray: seq<nat>
    var weakValues: seq<nat>
    var ephemerons: seq<nat>
    var allWeak: seq<nat>

    constructor (heap: Heap)
      requires WellFormed(heap)
      ensures this.heap == heap && Valid() && marked == {} && roots == {} && gray == []
      ensures weakValues == [] && ephemerons == [] && allWeak == []
    {
      this.heap := heap;
      roots, marked, gray, weakValues, ephemerons, allWeak := {}, {}, [], [], [], [];
    }

    /** The list that traversed tables of a weakness are kept in. */
    function ListOf(w: Weakness): seq<nat>
      reads this`weakValues, this`ephemerons, this`allWeak
    {
      match w
      case WeakValues => weakValues
      case WeakKeys => ephemerons
      case AllWeak => allWeak
      case Strong => []
    }

    /** o has been traversed: what it keeps is marked, and it is listed if it
        is weak. */
    ghost predicate Traversed(o: nat)
      requires o in heap
      reads this`heap, this`marked, this`weakValues, this`ephemerons, this`allWeak
    {
      && Followed(heap, marked, o)
      && (heap[o].Table? && WeaknessOf(heap, o) != Strong ==> o in ListOf(WeaknessOf(heap, o)))
    }

    /** Marking but for the objects in hand, which are being traversed. */
    ghost predicate ValidBut(hand: set<nat>)
      reads this
    {
      && WellFormed(heap) && marked <= heap.Keys && roots <= marked
      && (forall i :: 0 <= i < |gray| ==> gray[i] in marked && gray[i] !in hand)
      && (forall i, j :: 0 <= i < j < |gray| ==> gray[i] != gray[j])
      && (forall o :: o in marked && o !in gray && o !in hand ==> Traversed(o))
      && ListValid(heap, marked, gray, weakValues, WeakValues)
      && ListValid(heap, marked, gray, ephemerons, WeakKeys)
      && ListValid(heap, marked, gray, allWeak, AllWeak)
      && (forall s :: Bounds(heap, roots, s) ==> marked <= s)
    }

    ghost predicate Valid()
      reads this
    {
      ValidBut({})
    }

    /** A root is marked. */
    method MarkRoot(v: Value)
      requires Valid() && InHeap(heap, v)
      modifies this`marked, this`gray, this`roots
      ensures Valid() && Reached(marked, v)
      ensures roots == old(roots) + (if v.Obj? then {v.id} else {})
    {
      ghost var roots' := roots + (if v.Obj? then {v.id} else {});
      roots := roots';
      assert forall s :: Bounds(heap, roots', s) ==> Bounds(heap, old(roots), s);
      if v.Obj? && v.id !in marked {
        marked := marked + {v.id};
        gray := gray + [v.id];
      }
    }

    /** What marking and traversal keep: they only add. */
    twostate predicate Grown()
      reads this
    {
      && roots == old(roots) && old(marked) <= marked
      && old(weakValues) <= weakValues && old(ephemerons) <= ephemerons && old(allWeak) <= allWeak
      && (marked == old(marked) ==> gray == old(gray))
    }

    /** A value that every closed set with the roots has is marked. */
    method Mark(v: Value, ghost hand: set<nat>)
      requires ValidBut(hand) && hand <= marked && InHeap(heap, v)
      requires forall s :: Bounds(heap, roots, s) ==> Reached(s, v)
      modifies this`marked, this`gray
      ensures ValidBut(hand) && Reached(marked, v) && Grown()
      ensures Reached(old(marked), v) ==> marked == old(marked)
    {
      if v.Obj? && v.id !in marked {
        marked := marked + {v.id};
        gray := gray + [v.id];
      }
    }

    /** Marks values that the object o keeps. */
    method MarkAll(values: seq<Value>, ghost o: nat)
      requires ValidBut({o}) && o in marked
      requires forall v :: v in values ==> Keeps(heap, o, v)
      modifies this`marked, this`gray
      ensures ValidBut({o}) && Grown()
      ensures forall v :: v in values ==> Reached(marked, v)
    {
      var i := 0;
      while i < |values|
        invariant 0 <= i <= |values| && ValidBut({o}) && Grown()
        invariant forall j :: 0 <= j < i ==> Reached(marked, values[j])
      {
        KeptBound(o, values[i]);
        Mark(values[i], {o});
        i := i + 1;
      }
    }

    /** What a marked object keeps is in every closed set with the roots. */
    lemma KeptBound(o: nat, v: Value)
      requires WellFormed(heap) && o in marked && o in heap && Keeps(heap, o, v)
      requires forall s :: Bounds(heap, roots, s) ==> marked <= s
      ensures InHeap(heap, v) && forall s :: Bounds(heap, roots, s) ==> Reached(s, v)
    {
    }

    lemma MetaKept(t: nat)
      requires t in heap && heap[t].Table? && heap[t].meta.Some?
      ensures Keeps(heap, t, Obj(heap[t].meta.value))
    {
    }

    /** Marks the keys of a table with weak values. */
    method MarkKeys(t: nat)
      requires ValidBut({t}) && t in marked && heap[t].Table? && WeaknessOf(heap, t) == WeakValues
      modifies this`marked, this`gray
      ensures ValidBut({t}) && Grown()
      ensures forall i :: 0 <= i < |heap[t].entries| ==> Reached(marked, heap[t].entries[i].0)
    {
      var entries, i := heap[t].entries, 0;
      while i < |entries|
        invariant 0 <= i <= |entries| && ValidBut({t}) && Grown()
        invariant forall j :: 0 <= j < i ==> Reached(marked, entries[j].0)
      {
        KeptBound(t, entries[i].0);
        Mark(entries[i].0, {t});
        i := i + 1;
      }
    }

    /** Marks the keys and values of a strong table. */
    method MarkEntries(t: nat)
      requires ValidBut({t}) && t in marked && heap[t].Table? && WeaknessOf(heap, t) == Strong
      modifies this`marked, this`gray
      ensures ValidBut({t}) && Grown()
      ensures forall i :: 0 <= i < |heap[t].entries| ==>
        Reached(marked, heap[t].entries[i].0) && Reached(marked, heap[t].entries[i].1)
    {
      var entries, i := heap[t].entries, 0;
      while i < |entries|
        invariant 0 <= i <= |entries| && ValidBut({t}) && Grown()
        invariant forall j :: 0 <= j < i ==> Reached(marked, entries[j].0) && Reached(marked, entries[j].1)
      {
        KeptBound(t, entries[i].0);
        Mark(entries[i].0, {t});
        KeptBound(t, entries[i].1);
        Mark(entries[i].1, {t});
        i := i + 1;
      }
    }

    /** Marks the values of an ephemeron table whose keys are marked. */
    method MarkLive(t: nat, ghost hand: set<nat>) returns (changed: bool)
      requires ValidBut(hand) && hand <= marked && t in marked
      requires heap[t].Table? && WeaknessOf(heap, t) == WeakKeys
      modifies this`marked, this`gray
      ensures ValidBut(hand) && Grown() && (changed <==> marked != old(marked))
      ensures !changed ==> Ephemeral(heap, marked, t)
      ensures forall i :: 0 <= i < |heap[t].entries| && Reached(old(marked), heap[t].entries[i].0) ==>
        Reached(marked, heap[t].entries[i].1)
    {
      changed := false;
      var entries, i := heap[t].entries, 0;
      while i < |entries|
        invariant 0 <= i <= |entries| && ValidBut(hand) && Grown() && (changed <==> marked != old(marked))
        invariant forall j :: 0 <= j < i && Reached(old(marked), entries[j].0) ==> Reached(marked, entries[j].1)
      {
        if IsMarked(entries[i].0) && !IsMarked(entries[i].1) {
          EphemeronBound(t, i);
          Mark(entries[i].1, hand);
          changed := true;
        }
        i := i + 1;
      }
    }

    predicate IsMarked(v: Value)
      reads this`marked
    {
      Reached(marked, v)
    }

    /** The value of a marked key is in every closed set with the roots. */
    lemma EphemeronBound(t: nat, i: nat)
      requires WellFormed(heap) && t in marked && t in heap && heap[t].Table? && WeaknessOf(heap, t) == WeakKeys
      requires i < |heap[t].entries| && Reached(marked, heap[t].entries[i].0)
      requires forall s :: Bounds(heap, roots, s) ==> marked <= s
      ensures InHeap(heap, heap[t].entries[i].1)
      ensures forall s :: Bounds(heap, roots, s) ==> Reached(s, heap[t].entries[i].1)
    {
    }

    /** o is in no list of traversed tables. */
    ghost predicate Unlisted(o: nat)
      reads this`weakValues, this`ephemerons, this`allWeak
    {
      o !in weakValues && o !in ephemerons && o !in allWeak
    }

    /** Lists a weak table in hand. */
    method Enlist(t: nat, w: Weakness)
      requires ValidBut({t}) && t in marked && Unlisted(t) && heap[t].Table? && w == WeaknessOf(heap, t) != Strong
      modifies this`weakValues, this`ephemerons, this`allWeak
      ensures ValidBut({t}) && Grown() && t in ListOf(w)
    {
      match w {
        case WeakValues => weakValues := weakValues + [t];
        case WeakKeys => ephemerons := ephemerons + [t];
        case AllWeak => allWeak := allWeak + [t];
      }
      assert t !in gray && ListOf(w) == old(ListOf(w)) + [t];
      forall o | o in marked && o !in gray && o != t
        ensures Traversed(o)
      {
        assert old(Traversed(o));
      }
    }

    lemma ValidMeans(hand: set<nat>)
      requires ValidBut(hand)
      ensures WellFormed(heap) && marked <= heap.Keys && forall s :: Bounds(heap, roots, s) ==> marked <= s
    {
    }

    /** A traversed object is no longer in hand. */
    lemma Finish(o: nat)
      requires ValidBut({o}) && o in marked && o in heap && Traversed(o)
      ensures Valid()
    {
    }

    method TraverseTable(t: nat)
      requires ValidBut({t}) && t in marked && t in heap && t !in gray && Unlisted(t) && heap[t].Table?
      modifies this`marked, this`gray, this`weakValues, this`ephemerons, this`allWeak
      ensures Valid() && Grown()
    {
      hide Marker.ValidBut, Marker.Valid, Keeps, Followed, WeaknessOf, Ephemeral;
      ValidMeans({t});
      if heap[t].meta.Some? {
        MetaKept(t);
        KeptBound(t, Obj(heap[t].meta.value));
        Mark(Obj(heap[t].meta.value), {t});
      }
      var weakness := WeaknessOf(heap, t);
      match weakness {
        case AllWeak =>
          Enlist(t, weakness);
        case WeakValues =>
          Enlist(t, weakness);
          MarkKeys(t);
        case WeakKeys =>
          Enlist(t, weakness);
          var _ := MarkLive(t, {t});
        case Strong =>
          MarkEntries(t);
      }
      TableFollowed(heap, marked, t);
      Finish(t);
    }

    /** Marks what a marked object keeps. */
    method Traverse(o: nat)
      requires ValidBut({o}) && o in marked && o in heap && o !in gray && Unlisted(o)
      modifies this`marked, this`gray, this`weakValues, this`ephemerons, this`allWeak
      ensures Valid() && Grown()
    {
      match heap[o]
      case Table(_, _, _, _) =>
        TraverseTable(o);
      case Closure(upValues) =>
        MarkAll(upValues, o);
      case UserData(meta, values) =>
        if meta.Some? {
          KeptBound(o, Obj(meta.value));
          Mark(Obj(meta.value), {o});
        }
        MarkAll(values, o);
      case Thread(stack) =>
        MarkAll(stack, o);
    }

    /** Takes the last gray object in hand. */
    method Pop() returns (o: nat)
      requires Valid() && |gray| > 0
      modifies this`gray
      ensures gray == old(gray[..|gray| - 1])
      ensures ValidBut({o}) && o in marked && o in heap && o !in gray && Unlisted(o)
    {
      o := gray[|gray| - 1];
      gray := gray[..|gray| - 1];
      assert forall x :: x in old(gray) <==> x in gray || x == o;
    }

    /** Empties the gray list; what is marked stays within every closed set. */
    method Propagate()
      requires Valid()
      modifies this`marked, this`gray, this`weakValues, this`ephemerons, this`allWeak
      ensures Valid() && gray == [] && old(marked) <= marked && roots == old(roots)
      ensures old(weakValues) <= weakValues && old(ephemerons) <= ephemerons && old(allWeak) <= allWeak
      ensures old(gray) == [] ==> marked == old(marked) && ephemerons == old(ephemerons)
    {
      hide Marker.ValidBut, Marker.Unlisted;
      while |gray| > 0
        invariant Valid() && old(marked) <= marked && roots == old(roots)
        invariant old(weakValues) <= weakValues && old(ephemerons) <= ephemerons && old(allWeak) <= allWeak
        invariant old(gray) == [] ==> gray == [] && marked == old(marked) && ephemerons == old(ephemerons)
        decreases |heap.Keys - marked|, |gray|
      {
        ghost var before := marked;
        var o := Pop();
        Traverse(o);
        Unmarked(before);
      }
    }

    /** Marking leaves fewer objects unmarked. */
    lemma Unmarked(before: set<nat>)
      requires Valid() && before <= marked
      ensures before != marked ==> |heap.Keys - marked| < |heap.Keys - before|
    {
      if before != marked {
        SmallerSet(heap.Keys - marked, heap.Keys - before);
      }
    }

    /** Rounds over the listed ephemeron tables, each with a propagation, end with
        exactly what the roots reach. */
    method ConvergeEphemerons()
      requires Valid() && gray == []
      modifies this`marked, this`gray, this`weakValues, this`ephemerons, this`allWeak
      ensures Valid() && gray == [] && old(marked) <= marked && roots == old(roots)
      ensures IsReach(heap, roots, marked)
    {
      hide Marker.ValidBut, IsReach, Ephemeral;
      var changed := true;
      while changed
        invariant Valid() && gray == [] && old(marked) <= marked && roots == old(roots)
        invariant !changed ==> AllEphemeral(|ephemerons|)
        decreases |heap.Keys - marked|, changed
      {
        ghost var before := marked;
        changed := false;
        var i := 0;
        while i < |ephemerons|
          invariant 0 <= i <= |ephemerons| && Valid() && gray == [] && before <= marked && roots == old(roots)
          invariant changed <==> marked != before
          invariant !changed ==> AllEphemeral(i)
          decreases |heap| - i
        {
          Listed(i);
          var more := MarkLive(ephemerons[i], {});
          Propagate();
          changed := changed || more;
          i := i + 1;
          EphemeronsBounded();
        }
        Unmarked(before);
      }
      Converged();
    }

    /** The first n ephemeron tables have their reached keys' values reached. */
    ghost predicate AllEphemeral(n: nat)
      requires n <= |ephemerons|
      reads this
    {
      forall i :: 0 <= i < n ==> ephemerons[i] in heap && Ephemeral(heap, marked, ephemerons[i])
    }

    lemma Listed(i: nat)
      requires Valid() && i < |ephemerons|
      ensures ephemerons[i] in marked && ephemerons[i] in heap
      ensures heap[ephemerons[i]].Table? && WeaknessOf(heap, ephemerons[i]) == WeakKeys
    {
    }

    lemma Converged()
      requires Valid() && gray == [] && AllEphemeral(|ephemerons|)
      ensures IsReach(heap, roots, marked)
    {
    }

    // ---------- Clearing ----------

    /** Removes a table's entries that do not stay. */
    method RemoveWhere(t: nat, byKey: bool, byValue: bool)
      requires t in heap && heap[t].Table?
      modifies this`heap
      ensures heap == Sweep(old(heap), {t}, marked, byKey, byValue)
    {
      var entries, kept, i := heap[t].entries, [], 0;
      while i < |entries|
        invariant 0 <= i <= |entries|
        invariant kept == Surviving(entries[..i], marked, byKey, byValue)
      {
        assert entries[..i + 1][..i] == entries[..i];
        if Stays(entries[i], marked, byKey, byValue) {
          kept := kept + [entries[i]];
        }
        i := i + 1;
      }
      assert entries[..i] == entries;
      heap := heap[t := heap[t].(entries := kept)];
    }

    /** Clears a list of tables. */
    method ClearList(list: seq<nat>, byKey: bool, byValue: bool)
      requires forall t :: t in list ==> t in heap && heap[t].Table?
      requires forall i, j :: 0 <= i < j < |list| ==> list[i] != list[j]
      modifies this`heap
      ensures heap == Sweep(old(heap), Elements(list), marked, byKey, byValue)
    {
      var i := 0;
      while i < |list|
        invariant 0 <= i <= |list|
        invariant heap == Sweep(old(heap), Elements(list[..i]), marked, byKey, byValue)
      {
        ghost var done := Elements(list[..i]);
        RemoveWhere(list[i], byKey, byValue);
        SweepBoth(old(heap), done, {list[i]}, marked, byKey, byValue);
        assert Elements(list[..i + 1]) == done + {list[i]};
        i := i + 1;
      }
      assert list[..i] == list;
    }

    /** Sweeps the heap by values. What is marked so far is what marking goes on
        from. */
    method ClearValues()
      requires Valid() && gray == []
      modifies this`heap, this`roots
      ensures Valid() && roots == marked && heap.Keys == old(heap.Keys)
      ensures heap == Sweep(old(heap), ValueWeak(old(heap), marked), marked, false, true)
    {
      ListedSets();
      assert forall o :: o in marked ==> Traversed(o);
      assert TraversedIn(heap);
      ClearList(weakValues, false, true);
      ClearList(allWeak, false, true);
      SweepBoth(old(heap), Elements(weakValues), Elements(allWeak), marked, false, true);
      roots := marked;
      StillValid(old(heap), ValueWeak(old(heap), marked), false, true);
    }

    /** Sweeps the heap by keys, and goes on from what is marked. */
    method ClearKeys()
      requires Valid() && gray == []
      modifies this`heap, this`roots
      ensures Valid() && roots == marked && heap.Keys == old(heap.Keys)
      ensures heap == Sweep(old(heap), KeyWeak(old(heap), marked), marked, true, false)
    {
      ListedSets();
      assert forall o :: o in marked ==> Traversed(o);
      assert TraversedIn(heap);
      ClearList(ephemerons, true, false);
      ClearList(allWeak, true, false);
      SweepBoth(old(heap), Elements(ephemerons), Elements(allWeak), marked, true, false);
      roots := marked;
      StillValid(old(heap), KeyWeak(old(heap), marked), true, false);
    }

    /** The lists hold just the reached weak tables. */
    lemma ListedSets()
      requires Valid() && gray == []
      ensures Elements(weakValues) + Elements(allWeak) == ValueWeak(heap, marked)
      ensures Elements(ephemerons) + Elements(allWeak) == KeyWeak(heap, marked)
      ensures Elements(weakValues) !! Elements(allWeak)
      ensures Elements(ephemerons) !! Elements(allWeak)
    {
    }

    /** All that was marked has been traversed, in the heap before. */
    ghost predicate TraversedIn(before: Heap)
      reads this
    {
      && WellFormed(before) && marked <= before.Keys && gray == []
      && (forall o :: o in marked ==>
            Followed(before, marked, o)
            && (before[o].Table? && WeaknessOf(before, o) != Strong ==> o in ListOf(WeaknessOf(before, o))))
      && ListValid(before, marked, [], weakValues, WeakValues) && ListValid(before, marked, [], ephemerons, WeakKeys)
      && ListValid(before, marked, [], allWeak, AllWeak)
    }

    /** Clearing entries leaves marking valid, from what is marked so far. */
    lemma StillValid(before: Heap, tables: set<nat>, byKey: bool, byValue: bool)
      requires TraversedIn(before) && heap == Sweep(before, tables, marked, byKey, byValue) && roots == marked
      ensures Valid()
    {
      SweptWellFormed(before, tables, marked, byKey, byValue);
      forall o | o in marked
        ensures Traversed(o) && WeaknessOf(heap, o) == WeaknessOf(before, o)
      {
        SweptFollowed(before, tables, marked, byKey, byValue, marked, o);
        SweptWeakness(before, tables, marked, byKey, byValue, o);
      }
    }

    lemma EphemeronsBounded()
      requires Valid()
      ensures |ephemerons| <= |heap|
    {
      assert forall t :: t in ephemerons ==> t in heap;
      DistinctBounded(ephemerons, heap.Keys);
    }
  }

  /** What a traversal marks is what the table keeps. */
  lemma TableFollowed(heap: Heap, marked: set<nat>, t: nat)
    requires t in heap && heap[t].Table?
    requires heap[t].meta.Some? ==> Reached(marked, Obj(heap[t].meta.value))
    requires WeaknessOf(heap, t).Strong? || WeaknessOf(heap, t).WeakValues? ==>
      forall i :: 0 <= i < |heap[t].entries| ==> Reached(marked, heap[t].entries[i].0)
    requires WeaknessOf(heap, t).Strong? ==>
      forall i :: 0 <= i < |heap[t].entries| ==> Reached(marked, heap[t].entries[i].1)
    ensures Followed(heap, marked, t)
  {
  }

  lemma SmallerSet<T>(a: set<T>, b: set<T>)
    requires a < b
    ensures |a| < |b|
  {
    var x :| x in b && x !in a;
    assert a <= b - {x};
    SubsetSize(a, b - {x});
  }

  lemma {:induction false} SubsetSize<T>(a: set<T>, b: set<T>)
    requires a <= b
    ensures |a| <= |b|
  {
    if x :| x in a {
      SubsetSize(a - {x}, b - {x});
    }
  }

  /** Distinct elements of a set are at most as many. */
  lemma {:induction false} DistinctBounded<T>(s: seq<T>, keys: set<T>)
    requires forall i :: 0 <= i < |s| ==> s[i] in keys
    requires forall i, j :: 0 <= i < j < |s| ==> s[i] != s[j]
    ensures |s| <= |keys|
  {
    if |s| > 0 {
      DistinctBounded(s[1..], keys - {s[0]});
    }
  }
}
