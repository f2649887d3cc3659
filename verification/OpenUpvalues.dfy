/** The open upvalues of a stack: a linked list, in descending order of slot. */
module OpenUpvalues {
  import opened Wrappers

  type Value = int

  /** An upvalue: of a stack slot while open, with a value of its own once closed;
      next is the rest of the list it is in. */
  datatype UpValue = UpValue(open: bool, index: nat, closed: Value, next: Option<nat>)

  /** Closures refer to upvalues by where they are, here their numbers. */
  type Cells = map<nat, UpValue>

  /** The list from a cell on: open upvalues of slots below the stack's top, each
      of a slot below the one before's. */
  ghost predicate Linked(cells: Cells, head: Option<nat>, list: seq<nat>, size: nat)
    decreases list
  {
    if list == [] then head == None
    else
      && head == Some(list[0]) && list[0] in cells && cells[list[0]].open && cells[list[0]].index < size
      && (|list| > 1 ==> list[1] in cells && cells[list[0]].index > cells[list[1]].index)
      && Linked(cells, cells[list[0]].next, list[1..], size)
  }

  /** What an upvalue reads. */
  function Read(cells: Cells, stack: seq<Value>, uv: nat): Value
    requires uv in cells
  {
    if cells[uv].open && cells[uv].index < |stack| then stack[cells[uv].index] else cells[uv].closed
  }

  lemma {:induction false} Descends(cells: Cells, head: Option<nat>, list: seq<nat>, size: nat)
    requires Linked(cells, head, list, size)
    ensures forall i :: 0 <= i < |list| ==> list[i] in cells && cells[list[i]].open && cells[list[i]].index < size
    ensures forall i, j :: 0 <= i < j < |list| ==> cells[list[i]].index > cells[list[j]].index
    ensures forall i, j :: 0 <= i < j < |list| ==> list[i] != list[j]
    decreases list
  {
    if list != [] {
      Descends(cells, cells[list[0]].next, list[1..], size);
    }
  }

  /** A list stays linked where its cells stay as they were. */
  lemma {:induction false} StaysLinked(was: Cells, now: Cells, head: Option<nat>, list: seq<nat>, size: nat)
    requires Linked(was, head, list, size)
    requires forall i :: 0 <= i < |list| ==> list[i] in now && list[i] in was && now[list[i]] == was[list[i]]
    ensures Linked(now, head, list, size)
    decreases list
  {
    if list != [] {
      StaysLinked(was, now, was[list[0]].next, list[1..], size);
    }
  }

  class LuaState {
    var stack: seq<Value>
    var cells: Cells
    var upValues: Option<nat>
    var next: nat
    ghost var list: seq<nat>

    /** A stack with no upvalues. */
    constructor (stack: seq<Value>)
      ensures Valid() && this.stack == stack && cells == map[] && upValues == None
    {
      this.stack, cells, upValues, next, list := stack, map[], None, 0, [];
    }

    ghost predicate Valid()
      reads this
    {
      Linked(cells, upValues, list, |stack|) && (forall c :: c in cells ==> c < next)
      && (forall c :: c in cells && cells[c].open ==> c in list)
    }

    /** Where in the list the upvalue of a slot is, or would be. */
    method Seek(level: nat) returns (previous: Option<nat>, current: Option<nat>, ghost k: nat)
      requires Valid()
      ensures k <= |list| && previous == (if k == 0 then None else Some(list[k - 1]))
      ensures current == (if k < |list| then Some(list[k]) else None)
      ensures k > 0 ==> list[k - 1] in cells && cells[list[k - 1]].index > level
      ensures k < |list| ==> list[k] in cells && cells[list[k]].index <= level
    {
      previous, current, k := None, upValues, 0;
      Descends(cells, upValues, list, |stack|);
      assert list[0..] == list;
      while current.Some? && cells[current.value].index >= level
        invariant k <= |list| && Linked(cells, current, list[k..], |stack|)
        invariant previous == if k == 0 then None else Some(list[k - 1])
        invariant k > 0 ==> list[k - 1] in cells && cells[list[k - 1]].index > level
        decreases |list| - k
      {
        assert list[k..][0] == list[k] && list[k..][1..] == list[k + 1..];
        if cells[current.value].index == level {
          return;
        }
        previous, current, k := current, cells[current.value].next, k + 1;
      }
      if k < |list| {
        assert list[k..][0] == list[k];
      }
    }

    /** The open upvalue of a slot, the one there is or a new one in its place: no
        slot has two. */
    method FindUpValue(level: nat) returns (uv: nat)
      requires Valid() && level < |stack|
      modifies this`cells, this`upValues, this`next, this`list
      ensures Valid() && uv in cells && cells[uv].open && cells[uv].index == level
      ensures if HasOpen(old(cells), level) then uv in old(cells) && cells == old(cells)
              else uv !in old(cells) && cells.Keys == old(cells.Keys) + {uv}
      ensures forall o :: o in old(cells) ==> Same(old(cells)[o], cells[o])
    {
      hide Linked;
      Descends(cells, upValues, list, |stack|);
      var previous, current;
      ghost var k;
      previous, current, k := Seek(level);
      if current.Some? && cells[current.value].index == level {
        return current.value;
      }
      NoneAt(level, k);
      uv := next;
      Insert(uv, level, previous, current, k);
    }

    /** No upvalue is open at a level between two of the list's. */
    lemma NoneAt(level: nat, k: nat)
      requires Valid() && k <= |list| && (k > 0 ==> list[k - 1] in cells && cells[list[k - 1]].index > level)
      requires k < |list| ==> list[k] in cells && cells[list[k]].index < level
      ensures !HasOpen(cells, level)
    {
      Descends(cells, upValues, list, |stack|);
      forall c | c in cells && cells[c].open
        ensures cells[c].index != level
      {
        var i :| 0 <= i < |list| && list[i] == c;
        assert i < k - 1 ==> cells[list[i]].index > cells[list[k - 1]].index;
        assert i > k ==> cells[list[k]].index > cells[list[i]].index;
      }
    }

    /** A new upvalue takes its place in the list. */
    method Insert(uv: nat, level: nat, previous: Option<nat>, current: Option<nat>, ghost k: nat)
      requires Valid() && level < |stack| && uv == next && k <= |list|
      requires previous == (if k == 0 then None else Some(list[k - 1])) && current == (if k < |list| then Some(list[k]) else None)
      requires k > 0 ==> list[k - 1] in cells && cells[list[k - 1]].index > level
      requires k < |list| ==> list[k] in cells && cells[list[k]].index < level
      modifies this`cells, this`upValues, this`next, this`list
      ensures Valid() && cells.Keys == old(cells.Keys) + {uv} && cells[uv].open && cells[uv].index == level
      ensures forall o :: o in old(cells) ==> Same(old(cells)[o], cells[o])
    {
      hide Linked;
      ghost var was := list;
      Inserts(cells, upValues, list, |stack|, k, uv, UpValue(true, level, 0, current));
      next := next + 1;
      cells := cells[uv := UpValue(true, level, 0, current)];
      if previous.None? {
        upValues := Some(uv);
      } else {
        cells := cells[previous.value := cells[previous.value].(next := Some(uv))];
      }
      list := list[..k] + [uv] + list[k..];
      assert forall c :: c in was ==> c in list by {
        assert was == was[..k] + was[k..];
      }
      assert uv in list;
    }

    /** Afterwards no open upvalue is at level or higher, those that were read what
        their slots hold, and the rest are as they were. */
    method Close(level: nat)
      requires Valid()
      modifies this`cells, this`upValues, this`list
      ensures Valid() && cells.Keys == old(cells.Keys)
      ensures forall o :: o in cells ==> ClosedAt(old(cells)[o], cells[o], level)
      ensures forall o :: o in cells ==> Read(cells, stack, o) == Read(old(cells), stack, o)
    {
      hide Linked;
      HeadOf();
      while upValues.Some? && cells[upValues.value].index >= level
        invariant Valid() && cells.Keys == old(cells.Keys)
        invariant upValues.Some? ==> upValues.value in cells
        invariant forall o :: o in cells ==> Closing(old(cells)[o], cells[o], level)
        invariant forall o :: o in cells ==> Read(cells, stack, o) == Read(old(cells), stack, o)
        decreases |list|
      {
        HeadOf();
        CloseHead();
        HeadOf();
      }
      AllUnder(level);
    }

    lemma HeadOf()
      requires Valid()
      ensures upValues.Some? <==> list != []
      ensures upValues.Some? ==> upValues.value == list[0] && list[0] in cells && cells[list[0]].open && cells[list[0]].index < |stack|
    {
    }

    lemma AllUnder(level: nat)
      requires Valid() && (upValues.Some? ==> upValues.value in cells && cells[upValues.value].index < level)
      ensures forall o :: o in cells && cells[o].open ==> cells[o].index < level
    {
      Descends(cells, upValues, list, |stack|);
      HeadOf();
      forall o | o in cells && cells[o].open
        ensures cells[o].index < level
      {
        var i :| 0 <= i < |list| && list[i] == o;
        assert i > 0 ==> cells[list[0]].index > cells[list[i]].index;
      }
    }

    method CloseHead()
      requires Valid() && list != []
      modifies this`cells, this`upValues, this`list
      ensures Valid() && list == old(list)[1..] && cells.Keys == old(cells.Keys) && old(list)[0] in cells
      ensures forall o :: o in cells ==>
        cells[o] == if o == old(list)[0] then UpValue(false, old(cells)[o].index, stack[old(cells)[o].index], None) else old(cells)[o]
    {
      var uv := upValues.value;
      Descends(cells, upValues, list, |stack|);
      upValues := cells[uv].next;
      cells := cells[uv := UpValue(false, cells[uv].index, stack[cells[uv].index], None)];
      list := list[1..];
      StaysLinked(old(cells), cells, upValues, list, |stack|);
    }
  }

  /** An upvalue is open for a slot. */
  ghost predicate HasOpen(cells: Cells, level: nat) {
    exists c :: c in cells && cells[c].open && cells[c].index == level
  }

  /** An upvalue is closed if it was, or is at or above level and now is; one
      below level stays as it was, but for the list. */
  predicate ClosedAt(a: UpValue, b: UpValue, level: nat) {
    b.index == a.index && b.open == (a.open && a.index < level)
  }

  predicate Closing(a: UpValue, b: UpValue, level: nat) {
    b.index == a.index && (b.open ==> a.open) && (a.open && a.index < level ==> b.open)
  }

  /** But for its place in the list an upvalue is the same. */
  predicate Same(a: UpValue, b: UpValue) {
    b == a.(next := b.next)
  }

  /** A new upvalue in its place, after node k - 1 or at the head. */
  lemma {:induction false} Inserts(cells: Cells, head: Option<nat>, list: seq<nat>, size: nat, k: nat, uv: nat, u: UpValue)
    requires Linked(cells, head, list, size) && k <= |list| && uv !in cells && u.open && u.index < size
    requires u.next == (if k < |list| then Some(list[k]) else None)
    requires (k > 0 ==> list[k - 1] in cells && cells[list[k - 1]].index > u.index)
    requires (k < |list| ==> list[k] in cells && cells[list[k]].index < u.index)
    ensures
      var added := cells[uv := u];
      var after := if k == 0 then added else added[list[k - 1] := cells[list[k - 1]].(next := Some(uv))];
      Linked(after, if k == 0 then Some(uv) else head, list[..k] + [uv] + list[k..], size)
    decreases k
  {
    Descends(cells, head, list, size);
    var added := cells[uv := u];
    var longer := list[..k] + [uv] + list[k..];
    if k == 0 {
      assert longer[1..] == list;
      StaysLinked(cells, added, head, list, size);
    } else {
      var after := added[list[k - 1] := cells[list[k - 1]].(next := Some(uv))];
      assert longer[1..] == list[1..][..k - 1] + [uv] + list[1..][k - 1..];
      if k == 1 {
        assert longer[1..][1..] == list[1..];
        StaysLinked(cells, after, cells[list[0]].next, list[1..], size);
      } else {
        Inserts(cells, cells[list[0]].next, list[1..], size, k - 1, uv, u);
        assert list[1..][k - 2] == list[k - 1];
      }
    }
  }
}
