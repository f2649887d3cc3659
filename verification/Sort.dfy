/** Quicksort with sentinels: with a consistent order it sorts in place, raises no
    error, stays in range and nests logarithmically deep. */
module Sort {
  import opened Int64

  type Value = int

  type Order = (Value, Value) -> bool

  /** x does not come after y. */
  predicate Le(less: Order, x: Value, y: Value) {
    !less(y, x)
  }

  /** A strict weak order: what the function for sorting must be. */
  ghost predicate WeakOrder(less: Order) {
    && (forall x :: !less(x, x))
    && (forall x, y :: less(x, y) ==> Le(less, x, y))
    && (forall x, y, z :: Le(less, x, y) && Le(less, y, z) ==> Le(less, x, z))
  }

  /** b is a with its elements from lo to up rearranged. */
  ghost predicate Permuted(a: seq<Value>, b: seq<Value>, lo: int, up: int)
    requires 0 <= lo <= up + 1 <= |a|
  {
    && |b| == |a| && multiset(b[lo..up + 1]) == multiset(a[lo..up + 1])
    && (forall k :: 0 <= k < |a| && !(lo <= k <= up) ==> b[k] == a[k])
  }

  lemma PermutedFrom(a: seq<Value>, b: seq<Value>, lo: int, up: int, j: int)
    requires 0 <= lo <= up + 1 <= |a| && Permuted(a, b, lo, up) && lo <= j <= up
    ensures exists k :: lo <= k <= up && b[j] == a[k]
  {
    assert b[lo..up + 1][j - lo] in multiset(b[lo..up + 1]);
    assert b[j] in a[lo..up + 1];
    var i :| 0 <= i < |a[lo..up + 1]| && a[lo..up + 1][i] == b[j];
    assert b[j] == a[lo + i];
  }

  /** Rearranging part of a range rearranges the range. */
  lemma PermutedWider(a: seq<Value>, b: seq<Value>, lo: int, up: int, lo': int, up': int)
    requires 0 <= lo' <= lo <= up + 1 <= up' + 1 <= |a| && Permuted(a, b, lo, up)
    ensures Permuted(a, b, lo', up')
  {
    assert a[lo'..up' + 1] == a[lo'..lo] + a[lo..up + 1] + a[up + 1..up' + 1];
    assert b[lo'..up' + 1] == b[lo'..lo] + b[lo..up + 1] + b[up + 1..up' + 1];
    assert a[lo'..lo] == b[lo'..lo] && a[up + 1..up' + 1] == b[up + 1..up' + 1];
  }

  /** In the range, elements are in order but for those both from lo to up. */
  ghost predicate OrderedBut(s: seq<Value>, less: Order, first: int, last: int, lo: int, up: int) {
    forall i, j :: 0 <= first <= i < j <= last < |s| && !(lo <= i && j <= up) ==> Le(less, s[i], s[j])
  }

  ghost predicate Sorted(s: seq<Value>, less: Order, first: int, last: int) {
    forall i, j :: 0 <= first <= i < j <= last < |s| ==> Le(less, s[i], s[j])
  }

  /** Rearranging what is not yet in order keeps the rest in order. */
  lemma StillOrdered(a: seq<Value>, b: seq<Value>, less: Order, first: int, last: int, lo: int, up: int)
    requires 0 <= first <= lo <= up + 1 <= last + 1 <= |a| && Permuted(a, b, lo, up) && OrderedBut(a, less, first, last, lo, up)
    ensures OrderedBut(b, less, first, last, lo, up)
  {
    forall i, j | first <= i < j <= last && !(lo <= i && j <= up)
      ensures Le(less, b[i], b[j])
    {
      if lo <= i <= up {
        PermutedFrom(a, b, lo, up, i);
        var k :| lo <= k <= up && b[i] == a[k];
        assert Le(less, a[k], a[j]);
      } else if lo <= j <= up {
        PermutedFrom(a, b, lo, up, j);
        var k :| lo <= k <= up && b[j] == a[k];
        assert Le(less, a[i], a[k]);
      } else {
        assert Le(less, a[i], a[j]);
      }
    }
  }

  // ---------- The algorithm ----------

  method Swap(a: array<Value>, i: int, j: int, ghost lo: int, ghost up: int)
    requires 0 <= lo <= i <= up < a.Length && lo <= j <= up
    modifies a
    ensures a[..] == old(a[..])[i := old(a[j])][j := old(a[i])]
    ensures Permuted(old(a[..]), a[..], lo, up)
  {
    a[i], a[j] := a[j], a[i];
    SwapPermutes(old(a[..]), i, j, lo, up);
  }

  lemma SwapPermutes(s: seq<Value>, i: int, j: int, lo: int, up: int)
    requires 0 <= lo <= i <= up < |s| && lo <= j <= up
    ensures Permuted(s, s[i := s[j]][j := s[i]], lo, up)
  {
  }

  /** Elements not after the pivot, and elements not before it. */
  ghost predicate Low(s: seq<Value>, less: Order, from: int, to: int, pivot: Value) {
    forall k :: 0 <= from <= k < to <= |s| ==> Le(less, s[k], pivot)
  }

  ghost predicate High(s: seq<Value>, less: Order, from: int, to: int, pivot: Value) {
    forall k :: 0 <= from <= k < to <= |s| ==> Le(less, pivot, s[k])
  }

  /** The pivot is at up - 1, between the elements at lo and up, in a weak order:
      what partitioning relies on. */
  ghost predicate Guarded(s: seq<Value>, less: Order, lo: int, up: int) {
    WeakOrder(less) && 0 <= lo < up < |s| && Le(less, s[lo], s[up - 1]) && Le(less, s[up - 1], s[up])
  }

  /** Moves i up past what comes before the pivot, unless it meets the pivot's
      place. */
  method ScanUp(a: array<Value>, less: Order, first: int, up: int, pivot: Value, ghost fine: bool, ghost lo: int)
    returns (i: int, ok: bool)
    requires 0 <= lo < first <= up - 1 < a.Length
    requires fine ==> WeakOrder(less) && a[up - 1] == pivot && Low(a[..], less, lo, first, pivot)
    ensures first <= i <= up - 1 && (ok ==> !less(a[i], pivot)) && (fine ==> ok && Low(a[..], less, lo, i, pivot))
  {
    i := first;
    while less(a[i], pivot)
      invariant first <= i <= up - 1 && (fine ==> Low(a[..], less, lo, i, pivot))
      decreases up - i
    {
      if i == up - 1 {
        return i, false;
      }
      i := i + 1;
    }
    ok := true;
  }

  /** Moves j down past what comes after the pivot, unless it passes i. */
  method ScanDown(a: array<Value>, less: Order, i: int, last: int, up: int, pivot: Value, ghost fine: bool, ghost lo: int)
    returns (j: int, ok: bool)
    requires 0 <= lo < i < up && lo <= last < up < a.Length
    requires fine ==> WeakOrder(less) && Low(a[..], less, lo, i, pivot) && High(a[..], less, last + 1, up + 1, pivot)
    ensures lo <= j <= last && (ok ==> !less(pivot, a[j]))
    ensures fine ==> ok && High(a[..], less, j + 1, up + 1, pivot)
  {
    j := last;
    while less(pivot, a[j])
      invariant lo <= j <= last && (fine ==> High(a[..], less, j + 1, up + 1, pivot))
      decreases j
    {
      if j < i {
        assert a[..][j] == a[j];
        return j, false;
      }
      j := j - 1;
    }
    ok := true;
  }

  /** Partitioning so far: what is up to i is not after the pivot, and what is
      from j on not before it. */
  ghost predicate Parting(s: seq<Value>, less: Order, lo: int, up: int, i: int, j: int, pivot: Value) {
    && WeakOrder(less) && 0 <= lo <= i <= j <= up - 1 < |s| - 1 && s[up - 1] == pivot
    && Low(s, less, lo, i + 1, pivot) && High(s, less, j, up + 1, pivot)
  }

  /** Partitioning done: the pivot is at p. */
  ghost predicate Parted(s: seq<Value>, less: Order, lo: int, up: int, p: int) {
    0 <= lo < p < up < |s| && Low(s, less, lo, p, s[p]) && High(s, less, p + 1, up + 1, s[p])
  }

  lemma PartsOn(s: seq<Value>, t: seq<Value>, less: Order, lo: int, up: int, i: int, j: int, pivot: Value)
    requires WeakOrder(less) && 0 <= lo < i <= j < up - 1 < |s| - 1 && s[up - 1] == pivot
    requires Low(s, less, lo, i, pivot) && High(s, less, j + 1, up + 1, pivot)
    requires Le(less, pivot, s[i]) && Le(less, s[j], pivot) && t == s[i := s[j]][j := s[i]]
    ensures Parting(t, less, lo, up, i, j, pivot)
  {
  }

  lemma PartsEnd(s: seq<Value>, t: seq<Value>, less: Order, lo: int, up: int, i: int, j: int, pivot: Value)
    requires 0 <= lo < i <= up - 1 < |s| - 1 && j < i && lo <= j && s[up - 1] == pivot
    requires Low(s, less, lo, i, pivot) && High(s, less, j + 1, up + 1, pivot)
    requires t == s[up - 1 := s[i]][i := s[up - 1]]
    ensures Parted(t, less, lo, up, i)
  {
  }

  /** One exchange: i and j move toward each other, and unless they pass each
      other, or the order is invalid, their elements are swapped. */
  method Exchange(a: array<Value>, less: Order, lo: int, up: int, i0: int, j0: int, pivot: Value, ghost fine: bool,
                  ghost first: seq<Value>)
    returns (i: int, j: int, ok: bool)
    requires 0 <= lo <= i0 <= j0 <= up - 1 < a.Length - 1 && i0 < up - 1 && lo < j0
    requires |first| == a.Length && Permuted(first, a[..], lo, up)
    requires fine ==> Parting(a[..], less, lo, up, i0, j0, pivot)
    modifies a
    ensures i0 < i <= up - 1 && lo <= j < j0 && Permuted(first, a[..], lo, up)
    ensures fine ==> ok && if j < i then Parted(a[..], less, lo, up, i) else Parting(a[..], less, lo, up, i, j, pivot)
  {
    hide WeakOrder, Permuted, Low, High, Parted;
    j := j0 - 1;
    i, ok := ScanUp(a, less, i0 + 1, up, pivot, fine, lo);
    if !ok {
      return;
    }
    HighLess(a[..], less, j0, up, pivot);
    j, ok := ScanDown(a, less, i, j0 - 1, up, pivot, fine, lo);
    if !ok {
      return;
    }
    ghost var s := a[..];
    if j < i {
      SwapWithin(a, up - 1, i, lo, up, first);
      if fine {
        PartsEnd(s, a[..], less, lo, up, i, j, pivot);
      }
    } else {
      SwapWithin(a, i, j, lo, up, first);
      if fine {
        PartsOn(s, a[..], less, lo, up, i, j, pivot);
      }
    }
  }

  /** Splits the range around the pivot, which is at up - 1, with an element not
      after it at lo and one not before it at up. With any order it stays in range
      and only rearranges; with a weak order it raises no error. */
  method SortPartition(a: array<Value>, less: Order, lo: int, up: int) returns (p: int, ok: bool)
    requires 0 <= lo && lo + 2 < up < a.Length
    modifies a
    ensures lo < p < up && Permuted(old(a[..]), a[..], lo, up)
    ensures Guarded(old(a[..]), less, lo, up) ==> ok && Parted(a[..], less, lo, up, p)
  {
    hide WeakOrder, Permuted, Low, High, Parted;
    var pivot := a[up - 1];
    ghost var fine := Guarded(a[..], less, lo, up);
    PartsStart(a[..], less, lo, up);
    PermutedSame(a[..], lo, up);
    var i, j := lo, up - 1;
    while true
      invariant lo <= i <= j <= up - 1 && i < up - 1 && lo < j
      invariant Permuted(old(a[..]), a[..], lo, up) && (fine ==> Parting(a[..], less, lo, up, i, j, pivot))
      decreases j - i
    {
      i, j, ok := Exchange(a, less, lo, up, i, j, pivot, fine, old(a[..]));
      if !ok || j < i {
        return i, ok;
      }
    }
  }

  lemma PartsStart(s: seq<Value>, less: Order, lo: int, up: int)
    requires 0 <= lo && lo + 2 < up < |s|
    ensures Guarded(s, less, lo, up) ==> Parting(s, less, lo, up, lo, up - 1, s[up - 1])
  {
  }

  lemma HighLess(s: seq<Value>, less: Order, j: int, up: int, pivot: Value)
    ensures High(s, less, j, up + 1, pivot) ==> High(s, less, j - 1 + 1, up + 1, pivot)
  {
  }

  /** A swap rearranges what was rearranged before. */
  method SwapWithin(a: array<Value>, i: int, j: int, ghost lo: int, ghost up: int, ghost first: seq<Value>)
    requires 0 <= lo <= i <= up < a.Length && lo <= j <= up && |first| == a.Length && Permuted(first, a[..], lo, up)
    modifies a
    ensures a[..] == old(a[..])[i := old(a[j])][j := old(a[i])] && Permuted(first, a[..], lo, up)
  {
    Swap(a, i, j, lo, up);
    PermutedThen(first, old(a[..]), a[..], lo, up);
  }

  lemma PermutedSame(a: seq<Value>, lo: int, up: int)
    requires 0 <= lo <= up + 1 <= |a|
    ensures Permuted(a, a, lo, up)
  {
  }

  lemma PermutedThen(a: seq<Value>, b: seq<Value>, c: seq<Value>, lo: int, up: int)
    requires 0 <= lo <= up + 1 <= |a| && Permuted(a, b, lo, up) && |b| == |a| && Permuted(b, c, lo, up)
    ensures Permuted(a, c, lo, up)
  {
  }

  // ---------- Sorting ----------

  /** Swaps the elements at i and j if that at j comes before that at i. */
  method SwapIfLess(a: array<Value>, less: Order, i: int, j: int, ghost lo: int, ghost up: int, ghost first: seq<Value>)
    requires 0 <= lo <= i <= up < a.Length && lo <= j <= up && |first| == a.Length && Permuted(first, a[..], lo, up)
    modifies a
    ensures Permuted(first, a[..], lo, up)
    ensures
      var s := old(a[..]);
      a[..] == if less(s[j], s[i]) then s[i := s[j]][j := s[i]] else s
    ensures WeakOrder(less) ==> Le(less, a[i], a[j])
  {
    FirstLast(less, a[i], a[j]);
    if less(a[j], a[i]) {
      SwapWithin(a, i, j, lo, up, first);
    }
  }

  /** Puts the median of the first, the last and a middle element at p, the least
      at lo and the greatest at up. */
  method Median(a: array<Value>, less: Order, lo: int, p: int, up: int, ghost first: seq<Value>)
    requires 0 <= lo < p < up < a.Length && |first| == a.Length && Permuted(first, a[..], lo, up)
    requires WeakOrder(less) ==> Le(less, a[lo], a[up])
    modifies a
    ensures Permuted(first, a[..], lo, up)
    ensures WeakOrder(less) ==> Le(less, a[lo], a[p]) && Le(less, a[p], a[up])
  {
    hide Permuted;
    ghost var s := a[..];
    if less(a[p], a[lo]) {
      SwapWithin(a, p, lo, lo, up, first);
    } else {
      SwapIfLess(a, less, p, up, lo, up, first);
    }
    MedianOrders(s, less, lo, p, up);
  }

  lemma MedianOrders(s: seq<Value>, less: Order, lo: int, p: int, up: int)
    requires 0 <= lo < p < up < |s|
    ensures WeakOrder(less) && Le(less, s[lo], s[up]) ==>
      var t :=
        if less(s[p], s[lo]) then s[p := s[lo]][lo := s[p]]
        else if less(s[up], s[p]) then s[p := s[up]][up := s[p]] else s;
      Le(less, t[lo], t[p]) && Le(less, t[p], t[up])
  {
  }

  /** Sorts a range of two or three elements, or else puts a pivot at up - 1. */
  method Prepare(a: array<Value>, less: Order, lo: int, up: int, p: int) returns (done: bool)
    requires 0 <= lo < up < a.Length && lo <= p < up && (up - lo >= 2 ==> lo < p)
    modifies a
    ensures Permuted(old(a[..]), a[..], lo, up) && (done <==> up - lo <= 2)
    ensures WeakOrder(less) ==> if done then Sorted(a[..], less, lo, up) else Guarded(a[..], less, lo, up)
  {
    hide Permuted, WeakOrder, Sorted, Guarded, Le;
    if up - lo == 1 {
      PermutedSame(a[..], lo, up);
      SwapIfLess(a, less, lo, up, lo, up, old(a[..]));
      Two(a[..], less, lo);
      return true;
    }
    Ends(a, less, lo, p, up);
    if up - lo == 2 {
      Three(a[..], less, lo);
      return true;
    }
    PivotGuarded(a[..], less, lo, p, up);
    SwapWithin(a, p, up - 1, lo, up, old(a[..]));
    return false;
  }

  /** Orders the first, a middle and the last element. */
  method Ends(a: array<Value>, less: Order, lo: int, p: int, up: int)
    requires 0 <= lo < p < up < a.Length
    modifies a
    ensures Permuted(old(a[..]), a[..], lo, up)
    ensures WeakOrder(less) ==> Le(less, a[lo], a[p]) && Le(less, a[p], a[up])
  {
    hide Permuted, WeakOrder, Le;
    PermutedSame(a[..], lo, up);
    SwapIfLess(a, less, lo, up, lo, up, old(a[..]));
    Median(a, less, lo, p, up, old(a[..]));
  }

  lemma PivotGuarded(s: seq<Value>, less: Order, lo: int, p: int, up: int)
    requires 0 <= lo < p < up < |s| && up - lo > 2
    ensures WeakOrder(less) && Le(less, s[lo], s[p]) && Le(less, s[p], s[up]) ==>
      Guarded(s[p := s[up - 1]][up - 1 := s[p]], less, lo, up)
  {
  }

  lemma Two(s: seq<Value>, less: Order, lo: int)
    requires 0 <= lo && lo + 1 < |s| && (WeakOrder(less) ==> Le(less, s[lo], s[lo + 1]))
    ensures WeakOrder(less) ==> Sorted(s, less, lo, lo + 1)
  {
  }

  lemma FirstLast(less: Order, x: Value, y: Value)
    ensures WeakOrder(less) ==> if less(y, x) then Le(less, y, x) else Le(less, x, y)
  {
  }

  lemma Three(s: seq<Value>, less: Order, lo: int)
    requires 0 <= lo && lo + 2 < |s| && (WeakOrder(less) ==> Le(less, s[lo], s[lo + 1]) && Le(less, s[lo + 1], s[lo + 2]))
    ensures WeakOrder(less) ==> Sorted(s, less, lo, lo + 2)
  {
  }

  /** Rearranging one side of the pivot leaves the range parted. */
  lemma StillParted(s: seq<Value>, t: seq<Value>, less: Order, lo: int, up: int, p: int, left: bool)
    requires 0 <= lo < p < up < |s| && Parted(s, less, lo, up, p)
    requires Permuted(s, t, if left then lo else p + 1, if left then p - 1 else up)
    ensures Parted(t, less, lo, up, p)
  {
    var from, to := if left then lo else p + 1, if left then p - 1 else up;
    forall k | from <= k <= to
      ensures if left then Le(less, t[k], t[p]) else Le(less, t[p], t[k])
    {
      PermutedFrom(s, t, from, to, k);
      var x :| from <= x <= to && t[k] == s[x];
      assert if left then Le(less, s[x], s[p]) else Le(less, s[p], s[x]);
    }
  }

  /** With one side of the pivot sorted, only the other is left to sort. */
  lemma Narrows(s: seq<Value>, less: Order, first: int, last: int, lo: int, up: int, p: int, left: bool)
    requires WeakOrder(less) && 0 <= first <= lo < p < up <= last < |s| && Parted(s, less, lo, up, p)
    requires OrderedBut(s, less, first, last, lo, up)
    requires Sorted(s, less, if left then lo else p + 1, if left then p - 1 else up)
    ensures OrderedBut(s, less, first, last, if left then p + 1 else lo, if left then up else p - 1)
  {
  }

  /** Sorts one side of the pivot. */
  method SortSide(a: array<Value>, less: Order, lo: int, up: int, p: int, left: bool, rnd: nat, choose: (int, int, nat) -> nat)
    returns (ok: bool, ghost depth: nat)
    requires 0 <= lo < p < up < a.Length && (if left then p - lo <= up - p else up - p <= p - lo)
    modifies a
    ensures Permuted(old(a[..]), a[..], lo, up) && Pow2(depth) <= (if left then p - lo else up - p)
    ensures Permuted(old(a[..]), a[..], if left then lo else p + 1, if left then p - 1 else up)
    ensures WeakOrder(less) && Parted(old(a[..]), less, lo, up, p) ==>
      ok && Parted(a[..], less, lo, up, p) && Sorted(a[..], less, if left then lo else p + 1, if left then p - 1 else up)
    decreases up - lo, 0
  {
    hide WeakOrder, Permuted, Parted, Sorted;
    if left {
      ok, depth := SortAux(a, less, lo, p - 1, rnd, choose);
      PermutedWider(old(a[..]), a[..], lo, p - 1, lo, up);
    } else {
      ok, depth := SortAux(a, less, p + 1, up, rnd, choose);
      PermutedWider(old(a[..]), a[..], p + 1, up, lo, up);
    }
    if Parted(old(a[..]), less, lo, up, p) {
      StillParted(old(a[..]), a[..], less, lo, up, p, left);
    }
  }

  /** Where the pivot is taken from: the middle, or at random in the middle half. */
  method Pivot(lo: int, up: int, rnd: nat, choose: (int, int, nat) -> nat) returns (p: int)
    requires 0 <= lo < up
    ensures lo <= p < up && (up - lo >= 2 ==> lo < p)
  {
    p := (lo + up) / 2;
    if up - lo >= 100 && rnd != 0 {
      var r4 := (up - lo) / 4;
      p := choose(lo, up, rnd) % (r4 * 2) + lo + r4;
    }
  }

  /** One round: a pivot takes its place, the smaller side is sorted, and the
      larger is left. */
  method SortStep(a: array<Value>, less: Order, lo0: int, up0: int, lo: int, up: int, rnd: nat, choose: (int, int, nat) -> nat,
                  ghost first: seq<Value>)
    returns (ok: bool, lo': int, up': int, n: int, ghost depth: nat)
    requires 0 <= lo0 <= lo < up <= up0 < a.Length && |first| == a.Length && Permuted(first, a[..], lo0, up0)
    requires WeakOrder(less) ==> OrderedBut(a[..], less, lo0, up0, lo, up)
    modifies a
    ensures lo <= lo' && up' <= up && lo' <= up' + 1 && up' - lo' < up - lo && Permuted(first, a[..], lo0, up0)
    ensures WeakOrder(less) ==> ok && OrderedBut(a[..], less, lo0, up0, lo', up')
    ensures Pow2(depth) <= up - lo + 1
    decreases up - lo, 1
  {
    hide WeakOrder, Permuted, Parted, Sorted, Guarded, OrderedBut;
    lo', up', n, depth := up, up, 0, 0;
    var p := Pivot(lo, up, rnd, choose);
    ghost var s := a[..];
    var done := Prepare(a, less, lo, up, p);
    Rearranged(first, s, a[..], less, lo0, up0, lo, up);
    if done {
      SmallDone(a[..], less, lo0, up0, lo, up);
      return true, up, up, 0, 0;
    }
    ghost var t := a[..];
    p, ok := SortPartition(a, less, lo, up);
    Rearranged(first, t, a[..], less, lo0, up0, lo, up);
    if !ok {
      return;
    }
    ghost var u, left := a[..], p - lo < up - p;
    ok, depth := SortSide(a, less, lo, up, p, p - lo < up - p, rnd, choose);
    depth := depth + 1;
    Rearranged(first, u, a[..], less, lo0, up0, lo, up);
    if WeakOrder(less) {
      Narrows(a[..], less, lo0, up0, lo, up, p, left);
    }
    if p - lo < up - p {
      n, lo', up' := p - lo, p + 1, up;
    } else {
      n, lo', up' := up - p, lo, p - 1;
    }
  }

  /** A rearrangement within the range left to sort. */
  lemma Rearranged(first: seq<Value>, s: seq<Value>, t: seq<Value>, less: Order, lo0: int, up0: int, lo: int, up: int)
    requires 0 <= lo0 <= lo <= up <= up0 < |s| && |first| == |s| && Permuted(first, s, lo0, up0) && Permuted(s, t, lo, up)
    ensures Permuted(first, t, lo0, up0)
    ensures WeakOrder(less) && OrderedBut(s, less, lo0, up0, lo, up) ==> OrderedBut(t, less, lo0, up0, lo, up)
  {
    PermutedWider(s, t, lo, up, lo0, up0);
    PermutedThen(first, s, t, lo0, up0);
    if OrderedBut(s, less, lo0, up0, lo, up) {
      StillOrdered(s, t, less, lo0, up0, lo, up);
    }
  }

  lemma SmallDone(s: seq<Value>, less: Order, first: int, last: int, lo: int, up: int)
    requires 0 <= first <= lo < up <= last < |s|
    requires WeakOrder(less) ==> OrderedBut(s, less, first, last, lo, up) && Sorted(s, less, lo, up)
    ensures WeakOrder(less) ==> OrderedBut(s, less, first, last, up, up)
  {
  }

  /** Sorts a range, whatever pivots are chosen; the calls nest at most as deep as
      the range's length has bits. */
  method SortAux(a: array<Value>, less: Order, lo0: int, up0: int, rnd0: nat, choose: (int, int, nat) -> nat)
    returns (ok: bool, ghost depth: nat)
    requires 0 <= lo0 <= up0 + 1 <= a.Length
    modifies a
    ensures Permuted(old(a[..]), a[..], lo0, up0)
    ensures WeakOrder(less) ==> ok && Sorted(a[..], less, lo0, up0)
    ensures Pow2(depth) <= up0 - lo0 + 1 || (depth == 0 && lo0 == up0 + 1)
    decreases up0 - lo0 + 1, 1
  {
    hide WeakOrder, Permuted, Parted, Sorted, Guarded, OrderedBut;
    var lo, up, rnd := lo0, up0, rnd0;
    depth := 0;
    PermutedSame(a[..], lo0, up0);
    NothingOrdered(a[..], less, lo0, up0);
    while lo < up
      invariant lo0 <= lo && up <= up0 && lo <= up + 1 && Permuted(old(a[..]), a[..], lo0, up0)
      invariant WeakOrder(less) ==> OrderedBut(a[..], less, lo0, up0, lo, up)
      invariant Pow2(depth) <= up0 - lo0 + 1 || (depth == 0 && lo0 == up0 + 1)
      decreases up - lo
    {
      var n;
      ghost var more;
      ok, lo, up, n, more := SortStep(a, less, lo0, up0, lo, up, rnd, choose, old(a[..]));
      depth := if more > depth then more else depth;
      if !ok {
        return;
      }
      if (up - lo) / 128 > n {
        rnd := choose(lo, up, rnd);
      }
    }
    ok := true;
    AllOrdered(a[..], less, lo0, up0, lo, up);
  }

  lemma NothingOrdered(s: seq<Value>, less: Order, lo: int, up: int)
    ensures OrderedBut(s, less, lo, up, lo, up)
  {
  }

  lemma AllOrdered(s: seq<Value>, less: Order, first: int, last: int, lo: int, up: int)
    requires lo >= up
    ensures OrderedBut(s, less, first, last, lo, up) ==> Sorted(s, less, first, last)
  {
  }
}
