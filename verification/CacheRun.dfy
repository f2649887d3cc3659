/** Any interleaving of stores, new keys, metatables, burials and cache refills:
    every cache stays sound, and every answer is the generic path's. */
module CacheRun {
  import opened Wrappers
  import opened Shapes
  import opened Lookup
  import opened FieldCache

  /** What a program or the collector does next. A raw store may give a table a
      key, make it a dictionary or compact it. */
  datatype Event =
    | MakeTable
    | MakeTableAt(instruction: nat)
    | RawStore(t: nat, key: string, x: Value)
    | StoreField(v: Value, key: string, x: Value)
    | ReadField(v: Value, key: string)
    | GiveMetaTable(t: nat, mt: Option<nat>)
    | GiveStrings(mt: Option<nat>)
    | Bury(t: nat)
    | SiteGets(site: nat, v: Value)
    | SiteGetsOfString(site: nat, str: string)
    | SiteSets(site: nat, v: Value, x: Value)

  /** What a site answered, in which state. */
  datatype Answered = Answered(shapes: ShapeMap, tables: TableMap, strings: Option<nat>, v: Value, key: string, answer: Answer)
  {
    /** An answer is the generic path's. */
    ghost predicate Right() {
      answer.Hit? ==> Index(shapes, tables, strings, v, key, MAX_TAG_LOOP) == Got(answer.v)
    }
  }

  /** The event has one of so many sites answer. */
  predicate Asks(e: Event, sites: nat) {
    (e.SiteGets? || e.SiteGetsOfString?) && e.site < sites
  }

  function Asked(events: seq<Event>, sites: nat): nat {
    if events == [] then 0
    else Asked(events[..|events| - 1], sites) + (if Asks(events[|events| - 1], sites) then 1 else 0)
  }

  ghost predicate AllSound(shapes: ShapeMap, sites: seq<Site>, keys: seq<string>)
    reads sites
  {
    |sites| == |keys| && forall i :: 0 <= i < |sites| ==> Sound(shapes, sites[i].c, keys[i])
  }

  ghost predicate AllRight(answers: seq<Answered>) {
    forall i :: 0 <= i < |answers| ==> answers[i].Right()
  }

  /** A running program: its tables, and its instructions with constant keys. */
  class Program {
    const w: World
    const sites: seq<Site>
    const keys: seq<string>
    var strings: Option<nat>
    ghost var answers: seq<Answered>

    ghost predicate Valid()
      reads this, w, sites
    {
      && Lookup.Valid(w) && AllSound(w.shapes, sites, keys) && AllRight(answers)
      && (forall i, j :: 0 <= i < j < |sites| ==> sites[i] != sites[j])
      && (strings.Some? ==> strings.value in w.tables)
    }

    constructor (hash: string -> int, instructions: set<nat>, keys: seq<string>)
      ensures Valid() && this.keys == keys && answers == [] && fresh(w) && fresh(sites)
    {
      var made: seq<Site> := [];
      var world := new World(hash, instructions);
      while |made| < |keys|
        invariant |made| <= |keys| && fresh(made) && Lookup.Valid(world) && AllSound(world.shapes, made, keys[..|made|])
        invariant forall i, j :: 0 <= i < j < |made| ==> made[i] != made[j]
      {
        var site := new Site();
        made := made + [site];
      }
      assert keys[..|made|] == keys;
      w, sites, this.keys := world, made, keys;
      strings, answers := None, [];
    }

    /** Caches stay sound while shapes evolve. */
    lemma SitesStay(was: ShapeMap)
      requires AllSound(was, sites, keys) && Evolves(was, w.shapes)
      ensures AllSound(w.shapes, sites, keys)
    {
      forall i | 0 <= i < |sites|
        ensures Sound(w.shapes, sites[i].c, keys[i])
      {
        StaysSound(was, w.shapes, sites[i].c, keys[i]);
      }
    }

    /** The world has changed from one where shapes were as given. */
    lemma AfterStore(was: ShapeMap, before: TableMap)
      requires AllSound(was, sites, keys) && Evolves(was, w.shapes) && Lookup.Valid(w) && AllRight(answers)
      requires forall i, j :: 0 <= i < j < |sites| ==> sites[i] != sites[j]
      requires strings.Some? ==> strings.value in before
      requires before.Keys <= w.tables.Keys
      ensures Valid()
    {
      hide Lookup.Valid, AllSound, AllRight, Evolves;
      SitesStay(was);
    }

    /** A new table, with or without an instruction's layout. */
    method Make(instruction: Option<nat>)
      requires Valid()
      modifies w
      ensures Valid()
    {
      hide AllSound, AllRight, Evolves, AtString;
      EvolvesReflexive(w.shapes);
      ghost var was, before := w.shapes, w.tables;
      if instruction.None? {
        var _ := w.NewTable();
      } else if instruction.value in w.sites {
        var _ := w.NewTableAt(instruction.value);
      }
      assert FlagsSound(w.shapes, w.tables) by {
        forall t, e | t in w.tables && e in w.tables[t].flags
          ensures Absent(w.shapes, w.tables[t], e)
        {
          assert t in before && w.tables[t] == before[t];
        }
      }
      AfterStore(was, before);
    }

    /** What happens to tables. */
    method Change(e: Event)
      requires Valid() && (e.RawStore? || e.StoreField? || e.ReadField? || e.GiveMetaTable? || e.Bury?)
      modifies w
      ensures Valid()
    {
      hide AllSound, AllRight, Evolves, AtString, World.Sound, Stored, OnlyChanged;
      EvolvesReflexive(w.shapes);
      ghost var was, before := w.shapes, w.tables;
      match e {
        case RawStore(t, key, x) =>
          if t in w.tables {
            Store(w, t, key, x);
            StoredEvolves(was, before, w.shapes, w.tables, t, key, x);
          }
        case StoreField(v, key, x) =>
          var r := SetTableAt(w, strings, v, key, x);
          if r.RawSet? {
            ghost var flagged :| SameButFlags(before, flagged) && Stored(was, flagged, w.shapes, w.tables, r.t, key, x);
            StoredEvolves(was, flagged, w.shapes, w.tables, r.t, key, x);
          }
        case ReadField(v, key) =>
          var _ := TableAt(w, strings, v, key);
        case GiveMetaTable(t, mt) =>
          if t in w.tables && (mt.Some? ==> mt.value in w.tables) {
            w.SetMetaTable(t, mt);
            forall u, k | u in before
              ensures AtString(w.shapes, w.tables[u], k) == AtString(was, before[u], k)
            {
              assert w.Read(u, k) == old(w.Read(u, k));
            }
            SameFlags(was, before, w.shapes, w.tables);
          }
        case Bury(t) =>
          if t in w.tables {
            w.BuryDeadKeys(t);
            ChangedEvolves(was, before, w.shapes, w.tables, t);
            forall k
              ensures AtString(w.shapes, w.tables[t], k) == AtString(was, before[t], k)
            {
              assert w.Read(t, k) == old(w.Read(t, k));
            }
            SameFlags(was, before, w.shapes, w.tables);
          }
      }
      AfterStore(was, before);
    }

    /** What an instruction with a constant key does. */
    method Execute(e: Event)
      requires Valid() && (e.SiteGets? || e.SiteGetsOfString? || e.SiteSets?) && e.site < |sites|
      modifies this`answers, w`tables, sites
      ensures Valid() && old(answers) <= answers
      ensures |answers| == |old(answers)| + (if Asks(e, |sites|) then 1 else 0)
      ensures Asks(e, |sites|) ==>
        var a := answers[|old(answers)|];
        a == Answered(w.shapes, w.tables, strings, if e.SiteGets? then e.v else Text(e.str), keys[e.site], a.answer)
    {
      hide Index, Sound, Evolves, FlagsSound, AtString, StoresInSlot, Cacheable, OutOfRange;
      var site, key := sites[e.site], keys[e.site];
      ghost var others := answers;
      if e.SiteGets? {
        var a := site.GetField(w, e.v, key, strings);
        answers := answers + [Answered(w.shapes, w.tables, strings, e.v, key, a)];
      } else if e.SiteGetsOfString? {
        var a := site.GetStringField(w, strings, e.str, key);
        answers := answers + [Answered(w.shapes, w.tables, strings, Text(e.str), key, a)];
      } else {
        var _ := site.SetField(w, e.v, key, e.x, strings);
      }
    }

    /** One event; one that names no table or site does nothing. */
    method Step(e: Event)
      requires Valid()
      modifies this, w, sites
      ensures Valid() && old(answers) <= answers
      ensures |answers| == |old(answers)| + (if Asks(e, |sites|) then 1 else 0)
    {
      hide AllSound, AllRight, Evolves, AtString, FlagsSound, World.Sound;
      if e.MakeTable? {
        Make(None);
      } else if e.MakeTableAt? {
        Make(Some(e.instruction));
      } else if e.GiveStrings? {
        if e.mt.None? || e.mt.value in w.tables {
          strings := e.mt;
        }
      } else if e.SiteGets? || e.SiteGetsOfString? || e.SiteSets? {
        if e.site < |sites| {
          Execute(e);
        }
      } else {
        Change(e);
      }
    }

    /** Any run of events: caches are sound all along, each reading is answered, and
        every answer ever given was the generic path's when it was given. */
    method Play(events: seq<Event>)
      requires Valid()
      modifies this, w, sites
      ensures Valid() && old(answers) <= answers && |answers| == |old(answers)| + Asked(events, |sites|)
    {
      for i := 0 to |events|
        invariant Valid() && old(answers) <= answers && |answers| == |old(answers)| + Asked(events[..i], |sites|)
      {
        assert events[..i + 1][..i] == events[..i];
        Step(events[i]);
      }
      assert events[..|events|] == events;
    }
  }

  lemma StoredEvolves(was: ShapeMap, before: TableMap, now: ShapeMap, after: TableMap, t: nat, key: string, x: Value)
    requires Stored(was, before, now, after, t, key, x)
    ensures Evolves(was, now) && after.Keys == before.Keys
  {
  }

  lemma ChangedEvolves(was: ShapeMap, before: TableMap, now: ShapeMap, after: TableMap, t: nat)
    requires OnlyChanged(was, before, now, after, t) && t in before
    ensures Evolves(was, now) && after.Keys == before.Keys
    ensures forall u :: u in before ==> after[u].flags == before[u].flags
    ensures forall u, k :: u in before && u != t ==> AtString(now, after[u], k) == AtString(was, before[u], k)
  {
  }

  /** Flags stay sound where they and all fields are as they were. */
  lemma SameFlags(was: ShapeMap, before: TableMap, now: ShapeMap, after: TableMap)
    requires FlagsSound(was, before) && after.Keys == before.Keys
    requires forall u :: u in before ==> after[u].flags == before[u].flags
    requires forall u, k :: u in before ==> AtString(now, after[u], k) == AtString(was, before[u], k)
    ensures FlagsSound(now, after)
  {
  }
}
