/** What it is for a pattern to match, without order or backtracking: the matcher
    finds a match just where there is one. */
module PatternMeaning {
  import opened Wrappers
  import opened Pattern
  import opened PatternMatcher

  // ---------- Parts of patterns ----------

  predicate Suffix(c: byte) {
    Is(c, '?') || Is(c, '+') || Is(c, '*') || Is(c, '-')
  }

  /** An item with this after its class may be there n times. */
  predicate Times(c: byte, n: nat) {
    if Is(c, '?') then n <= 1 else if Is(c, '+') then n >= 1 else if Is(c, '*') || Is(c, '-') then true else n == 1
  }

  function Beyond(pat: seq<byte>, ep: nat): nat {
    if Suffix(At(pat, ep)) then ep + 1 else ep
  }

  /** The characters from s up to e are in the class. */
  ghost predicate InClass(src: seq<byte>, pat: seq<byte>, s: nat, e: nat, p: nat, ep: nat)
    requires p < ep <= |pat|
  {
    forall t: nat :: s <= t < e ==> Single(src, pat, t, p, ep)
  }

  /** How many more of b than of e there are from s up to k. */
  function Net(src: seq<byte>, s: nat, k: nat, b: byte, e: byte): int
    requires s <= k <= |src|
    decreases k - s
  {
    if s == k then 0
    else (if src[s] == e then -1 else if src[s] == b then 1 else 0) + Net(src, s + 1, k, b, e)
  }

  /** From s up to end, where count are open, all are closed, and not before. */
  ghost predicate Balances(src: seq<byte>, s: nat, end: nat, b: byte, e: byte, count: nat) {
    && s < end <= |src| && count + Net(src, s, end, b, e) == 0
    && forall k: nat :: s <= k < end ==> count + Net(src, s, k, b, e) > 0
  }

  /** A balanced string's end is where its brackets first balance. */
  lemma {:induction false} BalanceExact(src: seq<byte>, s: nat, b: byte, e: byte, count: nat, end: nat)
    requires count >= 1
    ensures BalanceEnd(src, s, b, e, count) == Some(end) <==> Balances(src, s, end, b, e, count)
    decreases |src| - s
  {
    if s < |src| {
      var delta := if src[s] == e then -1 else if src[s] == b then 1 else 0;
      NetNext(src, s, b, e);
      if count + delta >= 1 {
        BalanceExact(src, s + 1, b, e, count + delta, end);
        BalancesNext(src, s, end, b, e, count);
      } else {
        assert count + Net(src, s, s + 1, b, e) == 0;
      }
    }
  }

  lemma NetNext(src: seq<byte>, s: nat, b: byte, e: byte)
    requires s < |src|
    ensures forall k: nat :: s < k <= |src| ==>
      Net(src, s, k, b, e) == (if src[s] == e then -1 else if src[s] == b then 1 else 0) + Net(src, s + 1, k, b, e)
  {
  }

  lemma BalancesNext(src: seq<byte>, s: nat, end: nat, b: byte, e: byte, count: nat)
    requires s < |src| && count >= 1
    requires count + (if src[s] == e then -1 else if src[s] == b then 1 else 0) >= 1
    ensures Balances(src, s, end, b, e, count) <==>
            Balances(src, s + 1, end, b, e, count + (if src[s] == e then -1 else if src[s] == b then 1 else 0))
  {
    var next, t := count + (if src[s] == e then -1 else if src[s] == b then 1 else 0), s + 1;
    NetNext(src, s, b, e);
    if Balances(src, s, end, b, e, count) {
      assert end != t;
      forall k: nat | t <= k < end ensures next + Net(src, t, k, b, e) > 0 {
        assert count + Net(src, s, k, b, e) > 0;
      }
    }
    if Balances(src, t, end, b, e, next) {
      forall k: nat | s <= k < end ensures count + Net(src, s, k, b, e) > 0 {
        if k > s {
          assert next + Net(src, t, k, b, e) > 0;
        }
      }
    }
  }

  // ---------- Matching ----------

  /** The pattern from p matches the subject from s in way w, an error included,
      with the captures so far. */
  ghost predicate Matches(src: seq<byte>, pat: seq<byte>, s: nat, p: nat, caps: seq<Capture>, w: Way)
    decreases |pat| - p, 1
  {
    if p >= |pat| then w == Way(s, caps)
    else if Is(pat[p], '(') then
      if |caps| >= MAX_CAPTURES then w == Fault(TooManyCaptures)
      else if Is(At(pat, p + 1), ')') then Matches(src, pat, s, p + 2, caps + [Capture(s, CAP_POSITION)], w)
      else Matches(src, pat, s, p + 1, caps + [Capture(s, CAP_UNFINISHED)], w)
    else if Is(pat[p], ')') then
      var l := ToClose(caps);
      if l < 0 then w == Fault(InvalidPatternCapture)
      else Matches(src, pat, s, p + 1, caps[l := Capture(caps[l].init, s - caps[l].init)], w)
    else if Plain(pat, p) then
      match ClassEndOf(pat, p)
      case BadClass(error) => w == Fault(error)
      case EndsAt(ep) =>
        exists e: nat :: s <= e && Times(At(pat, ep), e - s) && InClass(src, pat, s, e, p, ep)
          && Matches(src, pat, e, Beyond(pat, ep), caps, w)
    else MatchesSpecial(src, pat, s, p, caps, w)
  }

  ghost predicate MatchesSpecial(src: seq<byte>, pat: seq<byte>, s: nat, p: nat, caps: seq<Capture>, w: Way)
    requires p < |pat|
    decreases |pat| - p, 0
  {
    if Is(pat[p], '$') then s == |src| && w == Way(s, caps)
    else if Is(At(pat, p + 1), 'b') then
      if p + 3 >= |pat| then w == Fault(MissingBalanceArguments) else MatchesBalanced(src, pat, s, p + 2, caps, w)
    else if Is(At(pat, p + 1), 'f') then
      if !Is(At(pat, p + 2), '[') then w == Fault(MissingFrontierSet)
      else match ClassEndOf(pat, p + 2)
        case BadClass(error) => w == Fault(error)
        case EndsAt(ep) => Frontier(src, pat, s, p + 2, ep - 1) && Matches(src, pat, s, ep, caps, w)
    else
      var l := At(pat, p + 1) - '1' as int;
      if !Referable(caps, l) then w == Fault(InvalidCaptureIndex)
      else Again(src, s, caps[l]) && Matches(src, pat, s + caps[l].len, p + 2, caps, w)
  }

  /** The brackets that pattern bytes p and p + 1 are balance from s to end. */
  ghost predicate BalancedAt(src: seq<byte>, pat: seq<byte>, s: nat, p: nat, end: nat)
    requires p + 1 < |pat|
  {
    At(src, s) == pat[p] && Balances(src, s + 1, end, pat[p], pat[p + 1], 1)
  }

  ghost predicate MatchesBalanced(src: seq<byte>, pat: seq<byte>, s: nat, p: nat, caps: seq<Capture>, w: Way)
    requires p + 1 < |pat|
    decreases |pat| - p, 1
  {
    exists end: nat :: BalancedAt(src, pat, s, p, end) && Matches(src, pat, end, p + 2, caps, w)
  }

  // ---------- Ways are matches ----------

  lemma {:induction false} RepeatsExact(src: seq<byte>, pat: seq<byte>, s: nat, e: nat, p: nat, ep: nat)
    requires p < ep <= |pat| && s <= e
    ensures e - s <= Repeats(src, pat, s, p, ep) <==> InClass(src, pat, s, e, p, ep)
    decreases e - s
  {
    hide Single;
    if s < e && Single(src, pat, s, p, ep) {
      RepeatsExact(src, pat, s + 1, e, p, ep);
    }
  }

  /** A way is one of the rest's from some place between. */
  ghost predicate FromSome(src: seq<byte>, pat: seq<byte>, first: nat, last: nat, p: nat, caps: seq<Capture>, w: Way) {
    exists s: nat :: first <= s <= last && w in Ways(src, pat, s, p, caps)
  }

  lemma {:induction false} MostExact(src: seq<byte>, pat: seq<byte>, first: nat, last: nat, p: nat, caps: seq<Capture>, w: Way)
    requires first <= last
    ensures w in Most(src, pat, first, last, p, caps) <==> FromSome(src, pat, first, last, p, caps, w)
    decreases last - first
  {
    hide Ways;
    if first < last {
      MostExact(src, pat, first, last - 1, p, caps, w);
    }
  }

  lemma {:induction false} LeastExact(src: seq<byte>, pat: seq<byte>, first: nat, last: nat, p: nat, caps: seq<Capture>, w: Way)
    requires first <= last
    ensures w in Least(src, pat, first, last, p, caps) <==> FromSome(src, pat, first, last, p, caps, w)
    decreases last - first
  {
    hide Ways;
    if first < last {
      LeastExact(src, pat, first + 1, last, p, caps, w);
    }
  }

  /** An item's ways are the rest's after as many characters as it may take. */
  ghost predicate TakesSome(src: seq<byte>, pat: seq<byte>, s: nat, p: nat, ep: nat, caps: seq<Capture>, w: Way)
    requires p < ep <= |pat|
  {
    exists e: nat :: s <= e && Times(At(pat, ep), e - s) && InClass(src, pat, s, e, p, ep) && w in Ways(src, pat, e, Beyond(pat, ep), caps)
  }

  lemma ItemExact(src: seq<byte>, pat: seq<byte>, s: nat, p: nat, ep: nat, caps: seq<Capture>, w: Way)
    requires p < ep <= |pat|
    ensures w in ItemWays(src, pat, s, p, ep, caps) <==> TakesSome(src, pat, s, p, ep, caps, w)
  {
    hide Ways, Most, Least, Single, Repeats, InClass;
    var c, q, reps := At(pat, ep), Beyond(pat, ep), Repeats(src, pat, s, p, ep);
    forall e: nat | s <= e ensures e - s <= reps <==> InClass(src, pat, s, e, p, ep) {
      RepeatsExact(src, pat, s, e, p, ep);
    }
    RepeatsNow(src, pat, s, p, ep);
    var low := s + if Is(c, '+') then 1 else 0;
    if (Is(c, '*') || Is(c, '+') || Is(c, '-')) && low <= s + reps {
      MostExact(src, pat, low, s + reps, q, caps, w);
      LeastExact(src, pat, low, s + reps, q, caps, w);
    }
  }

  lemma RepeatsNow(src: seq<byte>, pat: seq<byte>, s: nat, p: nat, ep: nat)
    requires p < ep <= |pat|
    ensures Repeats(src, pat, s, p, ep) == if Single(src, pat, s, p, ep) then 1 + Repeats(src, pat, s + 1, p, ep) else 0
  {
  }

  /** The ways are the matches: none is missing, and there are no others. */
  lemma {:induction false} WaysAreMatches(src: seq<byte>, pat: seq<byte>, s: nat, p: nat, caps: seq<Capture>, w: Way)
    ensures w in Ways(src, pat, s, p, caps) <==> Matches(src, pat, s, p, caps, w)
    decreases |pat| - p
  {
    if p < |pat| {
      if Is(pat[p], '(') || Is(pat[p], ')') {
        ParenthesisWays(src, pat, s, p, caps, w);
      } else if Plain(pat, p) {
        PlainWays(src, pat, s, p, caps, w);
      } else {
        SpecialWays(src, pat, s, p, caps, w);
      }
    }
  }

  lemma {:induction false} ParenthesisWays(src: seq<byte>, pat: seq<byte>, s: nat, p: nat, caps: seq<Capture>, w: Way)
    requires p < |pat| && (Is(pat[p], '(') || Is(pat[p], ')'))
    ensures w in Ways(src, pat, s, p, caps) <==> Matches(src, pat, s, p, caps, w)
    decreases |pat| - p, 0
  {
    if Is(pat[p], '(') {
      WaysAreMatches(src, pat, s, p + 1, caps + [Capture(s, CAP_UNFINISHED)], w);
      WaysAreMatches(src, pat, s, p + 2, caps + [Capture(s, CAP_POSITION)], w);
    } else if ToClose(caps) >= 0 {
      var l := ToClose(caps);
      WaysAreMatches(src, pat, s, p + 1, caps[l := Capture(caps[l].init, s - caps[l].init)], w);
    }
  }

  lemma {:induction false} PlainWays(src: seq<byte>, pat: seq<byte>, s: nat, p: nat, caps: seq<Capture>, w: Way)
    requires Plain(pat, p)
    ensures w in Ways(src, pat, s, p, caps) <==> Matches(src, pat, s, p, caps, w)
    decreases |pat| - p, 0
  {
    match ClassEndOf(pat, p)
    case BadClass(_) =>
    case EndsAt(ep) =>
      WaysOfItem(src, pat, s, p, ep, caps);
      ItemExact(src, pat, s, p, ep, caps, w);
      forall e: nat
        ensures w in Ways(src, pat, e, Beyond(pat, ep), caps) <==> Matches(src, pat, e, Beyond(pat, ep), caps, w)
      {
        WaysAreMatches(src, pat, e, Beyond(pat, ep), caps, w);
      }
      PlainMeans(src, pat, s, p, ep, caps, w);
  }

  lemma PlainMeans(src: seq<byte>, pat: seq<byte>, s: nat, p: nat, ep: nat, caps: seq<Capture>, w: Way)
    requires Plain(pat, p) && ClassEndOf(pat, p) == EndsAt(ep)
    ensures Matches(src, pat, s, p, caps, w) <==>
            exists e: nat :: s <= e && Times(At(pat, ep), e - s) && InClass(src, pat, s, e, p, ep)
              && Matches(src, pat, e, Beyond(pat, ep), caps, w)
  {
  }

  lemma {:induction false} BalancedWays(src: seq<byte>, pat: seq<byte>, s: nat, p: nat, caps: seq<Capture>, w: Way)
    requires p + 1 < |pat|
    ensures (match Balance(src, pat, s, p) case None => false case Some(end) => w in Ways(src, pat, end, p + 2, caps)) <==>
            MatchesBalanced(src, pat, s, p, caps, w)
    decreases |pat| - p, 1
  {
    hide Ways, Matches, BalanceEnd, Balances;
    forall end: nat
      ensures Balance(src, pat, s, p) == Some(end) <==> BalancedAt(src, pat, s, p, end)
    {
      BalanceExact(src, s + 1, pat[p], pat[p + 1], 1, end);
    }
    forall end: nat | BalancedAt(src, pat, s, p, end)
      ensures w in Ways(src, pat, end, p + 2, caps) <==> Matches(src, pat, end, p + 2, caps, w)
    {
      WaysAreMatches(src, pat, end, p + 2, caps, w);
    }
  }

  lemma {:induction false} SpecialWays(src: seq<byte>, pat: seq<byte>, s: nat, p: nat, caps: seq<Capture>, w: Way)
    requires p < |pat| && !Plain(pat, p) && !Is(pat[p], '(') && !Is(pat[p], ')')
    ensures w in Ways(src, pat, s, p, caps) <==> Matches(src, pat, s, p, caps, w)
    decreases |pat| - p, 0
  {
    hide Ways, BalanceEnd, Balances, Frontier, ClassEndOf;
    WaysOfSpecial(src, pat, s, p, caps);
    if Is(pat[p], '$') {
    } else if Is(At(pat, p + 1), 'b') {
      if p + 3 < |pat| {
        BalancedWays(src, pat, s, p + 2, caps, w);
      }
    } else if Is(At(pat, p + 1), 'f') {
      if Is(At(pat, p + 2), '[') && ClassEndOf(pat, p + 2).EndsAt? {
        WaysAreMatches(src, pat, s, ClassEndOf(pat, p + 2).p, caps, w);
      }
    } else {
      var l := At(pat, p + 1) - '1' as int;
      if Referable(caps, l) && Again(src, s, caps[l]) {
        WaysAreMatches(src, pat, s + caps[l].len, p + 2, caps, w);
      }
    }
  }

  ghost predicate NothingMatches(src: seq<byte>, pat: seq<byte>, s: nat, p: nat, caps: seq<Capture>) {
    forall w :: !Matches(src, pat, s, p, caps, w)
  }

  /** The matcher's outcome, in those terms: an end is a match's, with the
      captures it leaves; none means that nothing matches; and an error is one
      that some way meets. */
  lemma OutcomeMeans(src: seq<byte>, pat: seq<byte>, s: nat, p: nat, before: seq<Capture>, r: Outcome, after: seq<Capture>)
    requires Answers(r, after, Ways(src, pat, s, p, before), before)
    ensures r.End? ==> Matches(src, pat, s, p, before, Way(r.e, after))
    ensures r == NoMatch ==> NothingMatches(src, pat, s, p, before)
    ensures NothingMatches(src, pat, s, p, before) ==> r == NoMatch || r == Failed(TooComplex)
    ensures r.Failed? && r.error != TooComplex ==> Matches(src, pat, s, p, before, Fault(r.error))
  {
    hide Ways, Matches;
    var ways := Ways(src, pat, s, p, before);
    if ways != [] {
      WaysAreMatches(src, pat, s, p, before, ways[0]);
    } else {
      forall w ensures !Matches(src, pat, s, p, before, w) {
        WaysAreMatches(src, pat, s, p, before, w);
      }
    }
  }
}
