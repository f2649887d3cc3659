/** The queues of objects with finalizers: no object is finalized twice, none
    is lost, and each batch is finalized newest first. */
module Finalizers {
  import opened Wrappers
  import opened Collector
  import opened Collection

  // ---------- The queues as a state machine ----------

  /** The objects ever found to have a finalizer, in the order they were, and
      of them those that live, those due and those handed to their finalizers. */
  datatype Queues = Queues(noted: seq<nat>, finalizable: seq<nat>, due: seq<nat>, called: seq<nat>, closed: bool)

  const START := Queues([], [], [], [], false)

  datatype Event = Note(o: nat) | Cycle(marked: set<nat>) | Call | Close

  function Apply(q: Queues, e: Event): Queues {
    match e
    case Note(o) =>
      if q.closed || o in q.noted then q else q.(noted := q.noted + [o], finalizable := q.finalizable + [o])
    case Cycle(marked) =>
      q.(finalizable := Kept(q.finalizable, marked), due := q.due + Reverse(Dying(q.finalizable, marked)))
    case Call =>
      if q.due == [] then q else q.(due := q.due[1..], called := q.called + [q.due[0]])
    case Close =>
      q.(closed := true, finalizable := [], due := q.due + Reverse(q.finalizable))
  }

  function Run(q: Queues, events: seq<Event>): Queues
    decreases |events|
  {
    if events == [] then q else Run(Apply(q, events[0]), events[1..])
  }

  /** Where o was noted. */
  function Place(noted: seq<nat>, o: nat): nat
    requires o in noted
    ensures Place(noted, o) < |noted| && noted[Place(noted, o)] == o
  {
    if noted[0] == o then 0 else 1 + Place(noted[1..], o)
  }

  /** Objects in the order they were noted. */
  ghost predicate InOrder(noted: seq<nat>, objects: seq<nat>) {
    && (forall o :: o in objects ==> o in noted)
    && (forall i, j :: 0 <= i < j < |objects| ==> Place(noted, objects[i]) < Place(noted, objects[j]))
  }

  /** Each object noted is in one queue, once; the live ones are in order. */
  ghost predicate Tidy(q: Queues) {
    && multiset(q.noted) == multiset(q.finalizable) + multiset(q.due) + multiset(q.called)
    && (forall o :: o in q.noted ==> multiset(q.noted)[o] == 1)
    && InOrder(q.noted, q.finalizable)
    && (q.closed ==> q.finalizable == [])
  }

  lemma {:induction false} SplitMultiset(objects: seq<nat>, marked: set<nat>)
    ensures multiset(Kept(objects, marked)) + multiset(Dying(objects, marked)) == multiset(objects)
  {
    if |objects| > 0 {
      SplitMultiset(objects[..|objects| - 1], marked);
      assert objects == objects[..|objects| - 1] + [objects[|objects| - 1]];
    }
  }

  lemma {:induction false} ReverseMultiset(s: seq<nat>)
    ensures multiset(Reverse(s)) == multiset(s)
  {
    if |s| > 0 {
      ReverseMultiset(s[..|s| - 1]);
      assert s == s[..|s| - 1] + [s[|s| - 1]];
    }
  }

  lemma {:induction false} ReverseAt(s: seq<nat>, i: nat)
    requires i < |s|
    ensures |Reverse(s)| == |s| && Reverse(s)[i] == s[|s| - 1 - i]
    decreases |s|
  {
    if i > 0 {
      ReverseAt(s[..|s| - 1], i - 1);
    } else if |s| > 1 {
      ReverseAt(s[..|s| - 1], 0);
    }
  }

  /** A later noting does not move an object. */
  lemma {:induction false} PlaceExtends(noted: seq<nat>, o: nat, last: nat)
    requires o in noted
    ensures Place(noted + [last], o) == Place(noted, o)
  {
    if noted[0] != o {
      PlaceExtends(noted[1..], o, last);
      assert (noted + [last])[1..] == noted[1..] + [last];
    }
  }

  lemma {:induction false} PlaceLast(noted: seq<nat>, o: nat)
    requires o !in noted
    ensures Place(noted + [o], o) == |noted|
  {
  }

  /** An object noted after others may follow them. */
  lemma AppendInOrder(noted: seq<nat>, objects: seq<nat>, o: nat)
    requires InOrder(noted, objects) && o in noted
    requires forall p :: p in objects ==> Place(noted, p) < Place(noted, o)
    ensures InOrder(noted, objects + [o])
  {
  }

  lemma PrefixInOrder(noted: seq<nat>, front: seq<nat>, o: nat)
    requires InOrder(noted, front + [o])
    ensures InOrder(noted, front) && o in noted
    ensures forall p :: p in front ==> Place(noted, p) < Place(noted, o)
  {
    hide Place;
    var objects := front + [o];
    forall i, j | 0 <= i < j < |front|
      ensures front[i] in noted && front[j] in noted && Place(noted, front[i]) < Place(noted, front[j])
    {
      assert objects[i] == front[i] && objects[j] == front[j];
    }
    assert objects[|front|] == o;
    forall p | p in front
      ensures p in noted && Place(noted, p) < Place(noted, o)
    {
      var i :| 0 <= i < |front| && front[i] == p;
      assert objects[i] == p;
    }
  }

  lemma {:induction false} KeptInOrder(noted: seq<nat>, objects: seq<nat>, marked: set<nat>)
    requires InOrder(noted, objects)
    ensures InOrder(noted, Kept(objects, marked)) && InOrder(noted, Dying(objects, marked))
  {
    hide Place, InOrder;
    if |objects| == 0 {
      assert Kept(objects, marked) == objects && Dying(objects, marked) == objects;
    } else {
      var front, o := objects[..|objects| - 1], objects[|objects| - 1];
      assert objects == front + [o];
      PrefixInOrder(noted, front, o);
      KeptInOrder(noted, front, marked);
      if o in marked {
        AppendInOrder(noted, Kept(front, marked), o);
      } else {
        AppendInOrder(noted, Dying(front, marked), o);
      }
    }
  }

  lemma NoteInOrder(noted: seq<nat>, objects: seq<nat>, o: nat)
    requires InOrder(noted, objects) && o !in noted
    ensures InOrder(noted + [o], objects + [o])
  {
    hide Place;
    forall p | p in noted
      ensures Place(noted + [o], p) == Place(noted, p)
    {
      PlaceExtends(noted, p, o);
    }
    PlaceLast(noted, o);
    assert InOrder(noted + [o], objects);
    AppendInOrder(noted + [o], objects, o);
  }

  /** Every step keeps the queues tidy. */
  lemma ApplyTidy(q: Queues, e: Event)
    requires Tidy(q)
    ensures Tidy(Apply(q, e))
  {
    hide InOrder, Kept, Dying, Reverse;
    match e
    case Note(o) =>
      if !q.closed && o !in q.noted {
        NoteInOrder(q.noted, q.finalizable, o);
      }
    case Cycle(marked) =>
      CycleTidy(q, marked);
    case Call =>
      CallTidy(q);
    case Close =>
      CloseTidy(q);
  }

  lemma CycleTidy(q: Queues, marked: set<nat>)
    requires Tidy(q)
    ensures Tidy(Apply(q, Cycle(marked)))
  {
    hide InOrder, Kept, Dying, Reverse;
    SplitMultiset(q.finalizable, marked);
    ReverseMultiset(Dying(q.finalizable, marked));
    KeptInOrder(q.noted, q.finalizable, marked);
    Appended(q.due, Reverse(Dying(q.finalizable, marked)));
  }

  lemma CallTidy(q: Queues)
    requires Tidy(q)
    ensures Tidy(Apply(q, Call))
  {
    hide InOrder, Kept, Dying, Reverse;
    if q.due != [] {
      assert q.due == [q.due[0]] + q.due[1..];
      Appended([q.due[0]], q.due[1..]);
      Appended(q.called, [q.due[0]]);
    }
  }

  lemma CloseTidy(q: Queues)
    requires Tidy(q)
    ensures Tidy(Apply(q, Close))
  {
    hide InOrder, Kept, Dying, Reverse;
    ReverseMultiset(q.finalizable);
    NoneInOrder(q.noted);
    Appended(q.due, Reverse(q.finalizable));
  }

  lemma Appended(a: seq<nat>, b: seq<nat>)
    ensures multiset(a + b) == multiset(a) + multiset(b)
  {
  }

  lemma NoneInOrder(noted: seq<nat>)
    ensures InOrder(noted, [])
  {
  }

  lemma {:induction false} RunTidy(q: Queues, events: seq<Event>)
    requires Tidy(q)
    ensures Tidy(Run(q, events))
    decreases |events|
  {
    if events != [] {
      ApplyTidy(q, events[0]);
      RunTidy(Apply(q, events[0]), events[1..]);
    }
  }

  /** Over any run, no object is finalized twice and none is lost: those noted
      are in the queues, each in one place. */
  lemma NeverTwice(events: seq<Event>)
    ensures
      var q := Run(START, events);
      && multiset(q.noted) == multiset(q.finalizable) + multiset(q.due) + multiset(q.called)
      && (forall i, j :: 0 <= i < j < |q.called| ==> q.called[i] != q.called[j])
      && (forall o :: o in q.called ==> o in q.noted && o !in q.due && o !in q.finalizable)
  {
    RunTidy(START, events);
    var q := Run(START, events);
    forall i, j | 0 <= i < j < |q.called|
      ensures q.called[i] != q.called[j]
    {
      Twice(q.called, i, j);
      assert q.called[i] in multiset(q.called);
      assert q.called[i] in multiset(q.noted);
      assert q.called[i] in q.noted;
    }
    forall o | o in q.called
      ensures o in q.noted && o !in q.due && o !in q.finalizable
    {
      assert o in multiset(q.noted) && o in multiset(q.called);
      assert multiset(q.noted)[o] == 1;
    }
  }

  lemma Twice(s: seq<nat>, i: nat, j: nat)
    requires i < j < |s|
    ensures s[i] == s[j] ==> multiset(s)[s[i]] >= 2
  {
    assert s == s[..j] + [s[j]] + s[j + 1..];
    assert s[..j][i] in multiset(s[..j]);
  }

  /** A run that closes the state and then calls all that is due has finalized
      every object noted, exactly once. */
  lemma AllAtClose(events: seq<Event>)
    requires Run(START, events).closed && Run(START, events).due == []
    ensures multiset(Run(START, events).called) == multiset(Run(START, events).noted)
    ensures Run(START, events).finalizable == []
  {
    RunTidy(START, events);
  }

  /** What a collection or Close adds to the objects due, after those there,
      is newest first. */
  lemma NewestFirst(events: seq<Event>, e: Event, i: nat, j: nat)
    requires e.Cycle? || e.Close?
    requires
      var q := Run(START, events);
      |q.due| <= i < j < |Apply(q, e).due|
    ensures
      var q := Run(START, events);
      var due := Apply(q, e).due;
      && q.due <= due && due[i] in q.noted && due[j] in q.noted
      && Place(q.noted, due[i]) > Place(q.noted, due[j])
  {
    hide Place, Run, Kept, Dying, Reverse, InOrder;
    RunTidy(START, events);
    var q := Run(START, events);
    var batch := if e.Cycle? then Dying(q.finalizable, e.marked) else q.finalizable;
    if e.Cycle? {
      KeptInOrder(q.noted, q.finalizable, e.marked);
    }
    BatchNewestFirst(q.noted, batch, i - |q.due|, j - |q.due|);
  }

  lemma BatchNewestFirst(noted: seq<nat>, batch: seq<nat>, i: int, j: int)
    requires InOrder(noted, batch) && 0 <= i < j < |Reverse(batch)|
    ensures Reverse(batch)[i] in noted && Reverse(batch)[j] in noted
    ensures Place(noted, Reverse(batch)[i]) > Place(noted, Reverse(batch)[j])
  {
    hide Place;
    ReverseLength(batch);
    ReverseAt(batch, i);
    ReverseAt(batch, j);
  }

  lemma {:induction false} ReverseLength(s: seq<nat>)
    ensures |Reverse(s)| == |s|
  {
    if |s| > 0 {
      ReverseLength(s[..|s| - 1]);
    }
  }

  lemma {:induction false} RunAppend(q: Queues, events: seq<Event>, e: Event)
    ensures Run(q, events + [e]) == Apply(Run(q, events), e)
    decreases |events|
  {
    if events == [] {
      assert events + [e] == [e];
      assert [e][1..] == [];
    } else {
      assert (events + [e])[1..] == events[1..] + [e];
      RunAppend(Apply(q, events[0]), events[1..], e);
    }
  }

  // ---------- The state ----------

  /** What a finalizer does to what is modelled here: the heap it leaves, and
      the metatables it sets. */
  datatype Effect = Effect(heap: Heap, notes: seq<(Value, nat)>)

  /** What calling the finalizer of an object does in a heap: anything, as
      long as the heap it leaves is sound and has all the objects there were. */
  type World = (Heap, nat) -> Effect

  ghost predicate Legal(heap: Heap, e: Effect) {
    && WellFormed(e.heap) && heap.Keys <= e.heap.Keys
    && (forall n :: n in e.notes ==> InHeap(e.heap, n.0) && n.1 in e.heap && e.heap[n.1].Table?)
  }

  ghost predicate Lawful(world: World) {
    forall heap, o :: WellFormed(heap) ==> Legal(heap, world(heap, o))
  }

  /** The part of the global state that a collection reads and changes. */
  class GlobalState {
    var heap: Heap
    const registry: nat
    var metaTables: seq<Option<nat>>
    const mainThread: nat
    var flagged: set<nat>
    var finalizable: seq<nat>
    var toFinalize: seq<nat>
    var closed: bool
    var busy: bool
    ghost var called: seq<nat>
    ghost var noted: seq<nat>
    ghost var history: seq<Event>

    /** A state with an empty registry and a main thread with nothing on its
        stack. */
    constructor ()
      ensures Valid() && !closed && !busy && history == [] && Q() == START
    {
      heap := map[0 := Collector.Table(None, "", false, []), 1 := Thread([])];
      registry, mainThread := 0, 1;
      metaTables, flagged, finalizable, toFinalize, closed, busy := [], {}, [], [], false, false;
      called, noted, history := [], [], [];
    }

    ghost function Q(): Queues
      reads this
    {
      Queues(noted, finalizable, toFinalize, called, closed)
    }

    /** The queues are what the run so far leaves; flags are of the objects
        ever noted. */
    ghost predicate Valid()
      reads this
    {
      && WellFormed(heap) && registry in heap && mainThread in heap
      && (forall i :: 0 <= i < |metaTables| && metaTables[i].Some? ==> metaTables[i].value in heap)
      && (forall o :: o in finalizable || o in toFinalize ==> o in heap)
      && flagged == Elements(noted)
      && Q() == Run(START, history)
    }

    /** The roots of a collection that thread l runs. */
    ghost function Roots(l: nat): set<nat>
      reads this`metaTables, this`toFinalize
    {
      {registry, mainThread, l} + (set i | 0 <= i < |metaTables| && metaTables[i].Some? :: metaTables[i].value)
      + Elements(toFinalize)
    }

    /** A new metatable with __gc marks a table or userdata for finalization,
        unless it was before, or the state is closing. */
    method NoteMetaTable(v: Value, mt: Option<nat>)
      requires Valid() && InHeap(heap, v) && (mt.Some? ==> mt.value in heap && heap[mt.value].Table?)
      modifies this`flagged, this`finalizable, this`noted, this`history
      ensures Valid()
      ensures
        var notes := mt.Some? && heap[mt.value].gc && v.Obj? && (heap[v.id].Table? || heap[v.id].UserData?);
        history == old(history) + (if notes then [Note(v.id)] else [])
      ensures closed ==> noted == old(noted)
    {
      if mt.None? {
        return;
      }
      if v.Obj? {
        RunAppend(START, history, Note(v.id));
      }
      if !heap[mt.value].gc || closed {
        if heap[mt.value].gc && v.Obj? && (heap[v.id].Table? || heap[v.id].UserData?) {
          history := history + [Note(v.id)];
        }
        return;
      }
      if v.Obj? && (heap[v.id].Table? || heap[v.id].UserData?) {
        if v.id !in flagged {
          flagged := flagged + {v.id};
          finalizable := finalizable + [v.id];
          noted := noted + [v.id];
        }
        history := history + [Note(v.id)];
      }
    }

    /** Calls what is due, in order, until nothing is: whatever finalizers do,
        those due at the start are called, and nothing else. */
    method RunFinalizers(world: World)
      requires Valid() && Lawful(world)
      modifies this`heap, this`flagged, this`finalizable, this`toFinalize, this`called, this`noted, this`history
      ensures Valid() && toFinalize == [] && called == old(called) + old(toFinalize)
      ensures old(history) <= history && old(heap.Keys) <= heap.Keys
      ensures closed ==> noted == old(noted)
    {
      while |toFinalize| > 0
        invariant Valid() && called + toFinalize == old(called) + old(toFinalize)
        invariant old(history) <= history && old(heap.Keys) <= heap.Keys
        invariant closed ==> noted == old(noted)
      {
        var o := Next();
        CallFinalizer(o, world);
      }
    }

    /** Takes the first object due, to be called. */
    method Next() returns (o: nat)
      requires Valid() && |toFinalize| > 0
      modifies this`toFinalize, this`called, this`history
      ensures Valid() && [o] + toFinalize == old(toFinalize) && called == old(called) + [o]
      ensures history == old(history) + [Call]
    {
      o := toFinalize[0];
      RunAppend(START, history, Call);
      called, toFinalize := called + [o], toFinalize[1..];
      history := history + [Call];
    }

    /** A finalizer runs with no collections; what matters here of what it does
        is the heap it leaves and the metatables it sets. */
    method CallFinalizer(o: nat, world: World)
      requires Valid() && Lawful(world)
      modifies this`heap, this`flagged, this`finalizable, this`noted, this`history
      ensures Valid() && heap == world(old(heap), o).heap && old(heap.Keys) <= heap.Keys && old(history) <= history
      ensures closed ==> noted == old(noted)
    {
      var effect := world(heap, o);
      assert Legal(heap, effect);
      heap := effect.heap;
      var i := 0;
      while i < |effect.notes|
        invariant Valid() && heap == effect.heap && 0 <= i <= |effect.notes| && old(history) <= history
        invariant closed ==> noted == old(noted)
      {
        assert effect.notes[i] in effect.notes;
        NoteMetaTable(effect.notes[i].0, Some(effect.notes[i].1));
        i := i + 1;
      }
    }

    /** A collection up to its finalizers: what was reached, and what after
        resurrection. */
    method Cycle(l: nat) returns (ghost m1: set<nat>, ghost m2: set<nat>)
      requires Valid() && l in heap
      modifies this`heap, this`finalizable, this`toFinalize, this`history
      ensures Valid() && heap.Keys == old(heap.Keys)
      ensures Collected(old(heap), old(Roots(l)), old(finalizable), m1, m2, heap)
      ensures finalizable == Kept(old(finalizable), m1)
      ensures toFinalize == old(toFinalize) + Reverse(Dying(old(finalizable), m1))
      ensures history == old(history) + [Event.Cycle(m1)]
    {
      hide Marker.Valid, IsReach, Sweep, ValueWeak, KeyWeak, Kept, Dying, Reverse, Run, GlobalState.Roots, WellFormed;
      var c := MarkFromRoots(l);
      m1 := c.marked;
      c.ClearValues();

      var kept, dying := Split(c);
      Resurrect(c, dying);
      m2 := c.marked;
      ClearWeak(c);

      heap, finalizable := c.heap, kept;
      Enqueue(dying);
      RunAppend(START, history, Event.Cycle(m1));
      history := history + [Event.Cycle(m1)];
    }

    method MarkFromRoots(l: nat) returns (c: Marker)
      requires Valid() && l in heap
      ensures fresh(c) && c.Valid() && c.gray == [] && c.heap == heap
      ensures IsReach(heap, Roots(l), c.marked)
    {
      c := new Marker(heap);
      MarkRoots(c, l);
      c.Propagate();
      c.ConvergeEphemerons();
    }

    method MarkRoots(c: Marker, l: nat)
      requires Valid() && l in heap && c.Valid() && c.heap == heap && c.roots == {}
      modifies c`marked, c`gray, c`roots
      ensures c.Valid() && c.roots == Roots(l)
    {
      c.MarkRoot(Obj(registry));
      MarkMetaTables(c);
      c.MarkRoot(Obj(mainThread));
      c.MarkRoot(Obj(l));
      MarkObjects(c, toFinalize); // roots like the others
      assert c.roots == Roots(l);
    }

    method MarkMetaTables(c: Marker)
      requires Valid() && c.Valid() && c.heap == heap
      modifies c`marked, c`gray, c`roots
      ensures c.Valid()
      ensures c.roots == old(c.roots) + set i | 0 <= i < |metaTables| && metaTables[i].Some? :: metaTables[i].value
    {
      hide Marker.Valid;
      var i := 0;
      while i < |metaTables|
        invariant 0 <= i <= |metaTables| && c.Valid() && c.heap == heap
        invariant c.roots == old(c.roots) + set j | 0 <= j < i && metaTables[j].Some? :: metaTables[j].value
      {
        if metaTables[i].Some? {
          c.MarkRoot(Obj(metaTables[i].value));
        }
        i := i + 1;
      }
    }

    /** Marks the dying objects and what they reach. */
    method Resurrect(c: Marker, dying: seq<nat>)
      requires c.Valid() && c.gray == [] && c.roots == c.marked && forall o :: o in dying ==> o in c.heap
      modifies c`marked, c`gray, c`roots, c`weakValues, c`ephemerons, c`allWeak
      ensures c.Valid() && c.gray == []
      ensures IsReach(c.heap, old(c.marked) + Elements(dying), c.marked)
    {
      MarkObjects(c, dying);
      c.Propagate();
      c.ConvergeEphemerons();
    }

    /** Clears weak keys, then weak values once more. */
    method ClearWeak(c: Marker)
      requires c.Valid() && c.gray == []
      modifies c`heap, c`roots
      ensures
        var cleared := Sweep(old(c.heap), KeyWeak(old(c.heap), c.marked), c.marked, true, false);
        c.heap == Sweep(cleared, ValueWeak(cleared, c.marked), c.marked, false, true)
      ensures WellFormed(c.heap) && c.heap.Keys == old(c.heap.Keys)
    {
      c.ClearKeys(); // by what was reached after resurrection
      c.ClearValues();
    }

    /** The dying become due, newest first. */
    method Enqueue(dying: seq<nat>)
      modifies this`toFinalize
      ensures toFinalize == old(toFinalize) + Reverse(dying)
    {
      var i := |dying|;
      assert dying[..i] == dying;
      while i > 0
        invariant 0 <= i <= |dying|
        invariant toFinalize + Reverse(dying[..i]) == old(toFinalize) + Reverse(dying)
      {
        i := i - 1;
        assert dying[..i + 1][..i] == dying[..i];
        toFinalize := toFinalize + [dying[i]];
      }
    }

    method MarkObjects(c: Marker, objects: seq<nat>)
      requires c.Valid() && forall o :: o in objects ==> o in c.heap
      modifies c`marked, c`gray, c`roots
      ensures c.Valid() && c.roots == old(c.roots) + Elements(objects)
    {
      var i := 0;
      while i < |objects|
        invariant 0 <= i <= |objects| && c.Valid()
        invariant c.roots == old(c.roots) + Elements(objects[..i])
      {
        c.MarkRoot(Obj(objects[i]));
        i := i + 1;
      }
      assert objects[..i] == objects;
    }

    /** The finalizable objects marked, and those not. */
    method Split(c: Marker) returns (kept: seq<nat>, dying: seq<nat>)
      ensures kept == Kept(finalizable, c.marked) && dying == Dying(finalizable, c.marked)
    {
      kept, dying := [], [];
      var i := 0;
      while i < |finalizable|
        invariant 0 <= i <= |finalizable|
        invariant kept == Kept(finalizable[..i], c.marked) && dying == Dying(finalizable[..i], c.marked)
      {
        assert finalizable[..i + 1][..i] == finalizable[..i];
        if c.IsMarked(Obj(finalizable[i])) {
          kept := kept + [finalizable[i]];
        } else {
          dying := dying + [finalizable[i]];
        }
        i := i + 1;
      }
      assert finalizable[..i] == finalizable;
    }

    /** A Lua collection, unless one is in progress: the heap it leaves to
        finalizers, and what it found dying handed to them, newest first, after
        those due before. */
    method Collect(l: nat, world: World) returns (ghost m1: set<nat>, ghost m2: set<nat>, ghost after: Heap)
      requires Valid() && l in heap && Lawful(world)
      modifies this
      ensures Valid() && busy == old(busy) && closed == old(closed)
      ensures busy ==> Q() == old(Q()) && heap == old(heap)
      ensures !busy ==> Collected(old(heap), old(Roots(l)), old(finalizable), m1, m2, after)
      ensures !busy ==> toFinalize == [] && called == old(called) + old(toFinalize) + Reverse(Dying(old(finalizable), m1))
      ensures !busy ==> old(history) + [Event.Cycle(m1)] <= history
    {
      hide Collected, Kept, Dying, Reverse, Run, Apply, GlobalState.Roots, WellFormed, Lawful;
      m1, m2, after := {}, {}, heap;
      if busy {
        return;
      }
      busy := true;
      m1, m2 := Cycle(l);
      after := heap;
      busy := false;
      RunFinalizers(world);
    }

    /** Closing: every object with a finalizer not yet called is called, those
        due first and then the others, newest first, and none twice. */
    method Close(world: World)
      requires Valid() && Lawful(world)
      modifies this
      ensures Valid() && closed && finalizable == [] && toFinalize == []
      ensures called == old(called) + old(toFinalize) + Reverse(old(finalizable))
      ensures noted == old(noted) && multiset(called) == multiset(noted)
    {
      hide Reverse, Run, WellFormed, Lawful, Tidy;
      closed := true;
      Enqueue(finalizable);
      finalizable := [];
      RunAppend(START, history, Event.Close);
      history := history + [Event.Close];
      RunFinalizers(world);
      AllAtClose(history);
    }
  }
}
