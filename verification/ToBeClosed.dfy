/** To-be-closed variables: each is closed once, innermost first, whatever errors
    the __close metamethods raise. */
module ToBeClosed {
  import opened Wrappers
  import opened Int64

  type Value = int

  /** What a call of __close comes to. A call that raises an error may leave
      variables of its own to be closed, above the one it closes. */
  datatype Outcome = Returns | Raises(error: Value, left: seq<nat>)

  /** A call made: of which variable, with which error, and what came of it. */
  datatype Call = Call(index: nat, got: Option<Value>, outcome: Outcome)

  /** What the __close metamethods do: of each variable, with an error or none,
      after the calls made before. */
  type Closers = (nat, Option<Value>, seq<Call>) -> Outcome

  /** Stack indexes in ascending order, from low up to high. */
  ghost predicate Ascending(levels: seq<nat>, low: nat, high: nat) {
    && (forall i :: 0 <= i < |levels| ==> low <= levels[i] < high)
    && (forall i, j :: 0 <= i < j < |levels| ==> levels[i] < levels[j])
  }

  /** The stack has a limit, so variables are below it. */
  ghost predicate Lawful(closers: Closers, limit: nat) {
    forall index, got, calls :: LeftAbove(index, limit, closers(index, got, calls))
  }

  ghost predicate LeftAbove(index: nat, limit: nat, outcome: Outcome) {
    outcome.Raises? ==> Ascending(outcome.left, index + 1, limit)
  }

  function LeftBy(c: Call): seq<nat> {
    match c.outcome
    case Returns => []
    case Raises(_, left) => left
  }

  /** The list after calls that each close its last variable, if they do. */
  function Replay(tbc: seq<nat>, calls: seq<Call>): Option<seq<nat>> {
    if calls == [] then Some(tbc)
    else match Replay(tbc, calls[..|calls| - 1])
      case None => None
      case Some(list) =>
        var c := calls[|calls| - 1];
        if list == [] || list[|list| - 1] != c.index then None
        else Some(list[..|list| - 1] + LeftBy(c))
  }

  /** The last error raised, or the one there was. */
  function Latest(err: Option<Value>, calls: seq<Call>): Option<Value> {
    if calls == [] then err
    else match calls[|calls| - 1].outcome
      case Raises(error, _) => Some(error)
      case Returns => Latest(err, calls[..|calls| - 1])
  }

  /** Each call got the latest error by then. */
  ghost predicate EachGotLatest(err: Option<Value>, calls: seq<Call>) {
    forall j :: 0 <= j < |calls| ==> calls[j].got == Latest(err, calls[..j])
  }

  /** Calls took one list to another, each closing the last variable of what was
      left, with the latest error. */
  ghost predicate Took(before: seq<nat>, err: Option<Value>, calls: seq<Call>, after: seq<nat>) {
    Replay(before, calls) == Some(after) && EachGotLatest(err, calls)
  }

  lemma TookNothing(list: seq<nat>, err: Option<Value>)
    ensures Took(list, err, [], list)
  {
  }

  /** A further call, with the latest error. */
  lemma TakesOne(before: seq<nat>, err: Option<Value>, calls: seq<Call>, list: seq<nat>, c: Call)
    requires Took(before, err, calls, list) && c.got == Latest(err, calls) && list != [] && list[|list| - 1] == c.index
    ensures Took(before, err, calls + [c], list[..|list| - 1] + LeftBy(c))
    ensures Latest(err, calls + [c]) == if c.outcome.Raises? then Some(c.outcome.error) else Latest(err, calls)
  {
    var all := calls + [c];
    assert all[..|all| - 1] == calls;
    forall j | 0 <= j < |all|
      ensures all[j].got == Latest(err, all[..j])
    {
      assert all[..j] == calls[..j];
    }
  }

  /** Runs of calls compose. */
  lemma {:induction false} TookBoth(before: seq<nat>, err: Option<Value>, a: seq<Call>, list: seq<nat>, b: seq<Call>, after: seq<nat>)
    requires Took(before, err, a, list) && Took(list, Latest(err, a), b, after)
    ensures Took(before, err, a + b, after) && Latest(err, a + b) == Latest(Latest(err, a), b)
    decreases |b|
  {
    if b == [] {
      assert a + b == a;
    } else {
      var n := |b| - 1;
      var middle := TookPrefix(list, Latest(err, a), b, after);
      assert a + b == (a + b[..n]) + [b[n]];
      hide Took, Replay, Latest;
      TookBoth(before, err, a, list, b[..n], middle);
      TakesOne(before, err, a + b[..n], middle, b[n]);
    }
  }

  /** A run of calls but for the last. */
  lemma TookPrefix(before: seq<nat>, err: Option<Value>, calls: seq<Call>, after: seq<nat>) returns (list: seq<nat>)
    requires Took(before, err, calls, after) && calls != []
    ensures Took(before, err, calls[..|calls| - 1], list) && list != []
    ensures
      var c := calls[|calls| - 1];
      && list[|list| - 1] == c.index && after == list[..|list| - 1] + LeftBy(c) && c.got == Latest(err, calls[..|calls| - 1])
      && Latest(err, calls) == if c.outcome.Raises? then Some(c.outcome.error) else Latest(err, calls[..|calls| - 1])
  {
    var n := |calls| - 1;
    list := Replay(before, calls[..n]).value;
    assert forall j :: 0 <= j < n ==> calls[..n][..j] == calls[..j];
  }

  // ---------- Termination ----------

  /** Variables weigh more the lower they are: one outweighs any that its
      closing can leave above it. */
  function Weight(levels: seq<nat>, limit: nat): nat {
    if levels == [] then 0
    else Weight(levels[..|levels| - 1], limit) + Pow2(if levels[|levels| - 1] < limit then limit - levels[|levels| - 1] else 0)
  }

  lemma {:induction false} WeightAppend(a: seq<nat>, b: seq<nat>, limit: nat)
    ensures Weight(a + b, limit) == Weight(a, limit) + Weight(b, limit)
    decreases |b|
  {
    if b == [] {
      assert a + b == a;
    } else {
      assert (a + b)[..|a + b| - 1] == a + b[..|b| - 1];
      WeightAppend(a, b[..|b| - 1], limit);
    }
  }

  lemma {:induction false} WeightBounded(levels: seq<nat>, low: nat, limit: nat)
    requires Ascending(levels, low, limit) && low <= limit
    ensures Weight(levels, limit) < 2 * Pow2(limit - low)
    ensures levels != [] ==> Weight(levels, limit) + Pow2(limit - levels[|levels| - 1]) <= 2 * Pow2(limit - low)
    decreases |levels|
  {
    if levels != [] {
      var n := |levels| - 1;
      WeightBounded(levels[..n], low, limit);
      if n > 0 {
        PowDoubles(limit - levels[n - 1], limit - levels[n]);
      } else {
        Pow2Monotone(limit - levels[n], limit - low);
      }
    }
  }

  lemma PowDoubles(a: nat, b: nat)
    requires a > b
    ensures Pow2(a) >= 2 * Pow2(b)
  {
  }

  /** Closing a variable lightens the list, whatever it leaves. */
  lemma Lightens(list: seq<nat>, index: nat, left: seq<nat>, limit: nat)
    requires index < limit && Ascending(left, index + 1, limit)
    ensures Weight(list + left, limit) < Weight(list + [index], limit)
  {
    WeightAppend(list, left, limit);
    WeightAppend(list, [index], limit);
    WeightBounded(left, index + 1, limit);
    assert [index][..0] == [];
  }

  // ---------- A thread ----------

  class Thread {
    const limit: nat
    var tbc: seq<nat>
    var calls: seq<Call>

    /** A thread with nothing to be closed. */
    constructor (limit: nat)
      ensures Valid() && this.limit == limit && tbc == [] && calls == []
    {
      this.limit, tbc, calls := limit, [], [];
    }

    ghost predicate Valid()
      reads this
    {
      Ascending(tbc, 0, limit)
    }

    /** Registers the variable at a stack index, if its value needs closing. */
    method NewTBC(level: nat, needed: bool, closable: bool) returns (ok: bool)
      requires Valid() && level < limit && (tbc == [] || tbc[|tbc| - 1] < level)
      modifies this
      ensures Valid() && ok == (!needed || closable) && calls == old(calls)
      ensures tbc == if needed && closable then old(tbc) + [level] else old(tbc)
    {
      if !needed {
        return true;
      }
      if !closable {
        return false;
      }
      tbc := tbc + [level];
      return true;
    }

    method HasTBC(level: nat) returns (has: bool)
      requires Valid()
      ensures has <==> exists i :: 0 <= i < |tbc| && tbc[i] >= level
    {
      has := |tbc| > 0 && tbc[|tbc| - 1] >= level;
    }

    /** Takes the last variable off the list and then calls its closer, which may put
        others there. */
    method CloseLast(err: Option<Value>, closers: Closers) returns (r: Outcome)
      requires Valid() && Lawful(closers, limit) && tbc != []
      modifies this
      ensures Valid() && |calls| == |old(calls)| + 1 && old(calls) <= calls
      ensures
        var call := calls[|old(calls)|];
        && call == Call(old(tbc[|tbc| - 1]), err, r) && r == closers(call.index, err, old(calls))
        && tbc == old(tbc[..|tbc| - 1]) + LeftBy(call)
      ensures Weight(tbc, limit) < Weight(old(tbc), limit)
    {
      var index := tbc[|tbc| - 1];
      ghost var front := tbc[..|tbc| - 1];
      tbc := tbc[..|tbc| - 1];
      assert front + [index] == old(tbc);
      r := closers(index, err, calls);
      calls := calls + [Call(index, err, r)];
      tbc := tbc + if r.Raises? then r.left else [];
      assert LeftAbove(index, limit, r);
      Lightens(front, index, LeftBy(calls[|calls| - 1]), limit);
    }

    /** Runs closers down to level, or to the first that raises an error. */
    method CloseTBC(level: nat, err: Option<Value>, closers: Closers) returns (r: Option<Value>, ghost made: seq<Call>)
      requires Valid() && Lawful(closers, limit)
      modifies this
      ensures Valid() && calls == old(calls) + made && Took(old(tbc), err, made, tbc)
      ensures Below(tbc, level) == Below(old(tbc), level)
      ensures Latest(err, made) == if r.Some? then r else err
      ensures r.None? ==> forall i :: 0 <= i < |tbc| ==> tbc[i] < level
      ensures r.Some? ==> Weight(tbc, limit) < Weight(old(tbc), limit)
    {
      hide Took, Weight, Below;
      made := [];
      TookNothing(tbc, err);
      var has := HasTBC(level);
      while has
        invariant Valid() && calls == old(calls) + made && Took(old(tbc), err, made, tbc) && Latest(err, made) == err
        invariant Below(tbc, level) == Below(old(tbc), level) && Weight(tbc, limit) <= Weight(old(tbc), limit)
        invariant has <==> exists i :: 0 <= i < |tbc| && tbc[i] >= level
        decreases Weight(tbc, limit)
      {
        ghost var before := tbc;
        var outcome := CloseLast(err, closers);
        ghost var call := calls[|calls| - 1];
        TakesOne(old(tbc), err, made, before, call);
        BelowAfter(before, level, LeftBy(call));
        made := made + [call];
        if outcome.Raises? {
          return Some(outcome.error), made;
        }
        has := HasTBC(level);
      }
      return None, made;
    }

    /** Runs closers down to level whatever they raise, each with the latest error,
        which is returned at the end. */
    method CloseProtected(level: nat, err: Value, closers: Closers) returns (last: Value, ghost made: seq<Call>)
      requires Valid() && Lawful(closers, limit)
      modifies this
      ensures Valid() && calls == old(calls) + made && Took(old(tbc), Some(err), made, tbc)
      ensures tbc == Below(old(tbc), level) && Some(last) == Latest(Some(err), made)
    {
      hide Took, Weight, Below;
      last, made := err, [];
      TookNothing(tbc, Some(err));
      while true
        invariant Valid() && calls == old(calls) + made && Took(old(tbc), Some(err), made, tbc)
        invariant Below(tbc, level) == Below(old(tbc), level) && Some(last) == Latest(Some(err), made)
        decreases Weight(tbc, limit)
      {
        ghost var before := tbc;
        var e;
        ghost var more;
        e, more := CloseTBC(level, Some(last), closers);
        TookBoth(old(tbc), Some(err), made, before, more, tbc);
        made := made + more;
        if e.None? {
          AllBelow(tbc, level);
          return;
        }
        last := e.value;
      }
    }
  }

  /** The variables below level. */
  function Below(list: seq<nat>, level: nat): seq<nat> {
    if list == [] then []
    else Below(list[..|list| - 1], level) + if list[|list| - 1] < level then [list[|list| - 1]] else []
  }

  lemma {:induction false} BelowAppend(a: seq<nat>, b: seq<nat>, level: nat)
    requires forall i :: 0 <= i < |b| ==> b[i] >= level
    ensures Below(a + b, level) == Below(a, level)
    decreases |b|
  {
    if b == [] {
      assert a + b == a;
    } else {
      assert (a + b)[..|a + b| - 1] == a + b[..|b| - 1];
      BelowAppend(a, b[..|b| - 1], level);
    }
  }

  lemma BelowAfter(before: seq<nat>, level: nat, left: seq<nat>)
    requires before != [] && before[|before| - 1] >= level && forall i :: 0 <= i < |left| ==> left[i] > before[|before| - 1]
    ensures Below(before[..|before| - 1] + left, level) == Below(before, level)
  {
    BelowAppend(before[..|before| - 1], left, level);
  }

  lemma {:induction false} AllBelow(list: seq<nat>, level: nat)
    requires forall i :: 0 <= i < |list| ==> list[i] < level
    ensures Below(list, level) == list
  {
    if list != [] {
      AllBelow(list[..|list| - 1], level);
    }
  }

  /** Calls that raise nothing go down the list from its end, one variable each,
      all with the same error. */
  lemma {:induction false} InReverse(before: seq<nat>, err: Option<Value>, calls: seq<Call>, after: seq<nat>)
    requires Took(before, err, calls, after) && forall j :: 0 <= j < |calls| ==> calls[j].outcome.Returns?
    ensures |after| + |calls| == |before| && after == before[..|after|]
    ensures forall j :: 0 <= j < |calls| ==> calls[j].index == before[|before| - 1 - j] && calls[j].got == err
    decreases |calls|
  {
    if calls != [] {
      var n := |calls| - 1;
      var list := Replay(before, calls[..n]).value;
      assert forall j :: 0 <= j < n ==> calls[..n][j] == calls[j] && calls[..n][..j] == calls[..j];
      InReverse(before, err, calls[..n], list);
      NoErrors(err, calls[..n]);
    }
  }

  lemma {:induction false} NoErrors(err: Option<Value>, calls: seq<Call>)
    requires forall j :: 0 <= j < |calls| ==> calls[j].outcome.Returns?
    ensures Latest(err, calls) == err
  {
    if calls != [] {
      NoErrors(err, calls[..|calls| - 1]);
    }
  }

  /** Whatever errors there are, each variable there was and each that a call
      left is closed once, or is still there. */
  lemma {:induction false} EachOnce(before: seq<nat>, err: Option<Value>, calls: seq<Call>, after: seq<nat>)
    requires Took(before, err, calls, after)
    ensures multiset(before) + AllLeft(calls) == multiset(after) + Indexes(calls)
    decreases |calls|
  {
    if calls != [] {
      var n := |calls| - 1;
      var list := TookPrefix(before, err, calls, after);
      hide Took;
      EachOnce(before, err, calls[..n], list);
      PopPush(list, LeftBy(calls[n]));
      Balance(multiset(before), AllLeft(calls[..n]), multiset(list), Indexes(calls[..n]),
              multiset(after), multiset(LeftBy(calls[n])), multiset{calls[n].index});
    }
  }

  lemma Balance(b: multiset<nat>, l: multiset<nat>, m: multiset<nat>, i: multiset<nat>, a: multiset<nat>, l': multiset<nat>,
                i': multiset<nat>)
    requires b + l == m + i && a + i' == m + l'
    ensures b + (l + l') == a + (i + i')
  {
    forall x
      ensures (b + (l + l'))[x] == (a + (i + i'))[x]
    {
      assert (b + l)[x] == (m + i)[x] && (a + i')[x] == (m + l')[x];
    }
  }

  lemma PopPush(list: seq<nat>, left: seq<nat>)
    requires list != []
    ensures multiset(list[..|list| - 1] + left) + multiset{list[|list| - 1]} == multiset(list) + multiset(left)
  {
    assert list == list[..|list| - 1] + [list[|list| - 1]];
  }

  function AllLeft(calls: seq<Call>): multiset<nat> {
    if calls == [] then multiset{} else AllLeft(calls[..|calls| - 1]) + multiset(LeftBy(calls[|calls| - 1]))
  }

  function Indexes(calls: seq<Call>): multiset<nat> {
    if calls == [] then multiset{} else Indexes(calls[..|calls| - 1]) + multiset{calls[|calls| - 1].index}
  }
}
