/** The backtracking matcher, with captures undone on failure, against all the
    ways that a pattern matches. */
module PatternMatcher {
  import opened Wrappers
  import opened Pattern

  /** What a match attempt comes to. */
  datatype Outcome = End(e: nat) | NoMatch | Failed(error: Error)

  /** Captures start at s or before, and finished ones end there or before. */
  ghost predicate CapsValid(caps: seq<Capture>, s: nat) {
    forall i :: 0 <= i < |caps| ==> CapValid(caps[i], s)
  }

  predicate CapValid(c: Capture, s: nat) {
    0 <= c.init <= s && CAP_POSITION <= c.len && c.init + c.len <= s
  }

  /** The outcome is the first of the ways, with its captures; without one, the
      captures are as they were; an error is the first met, unless it is that
      the pattern is too complex. */
  ghost predicate Answers(r: Outcome, after: seq<Capture>, ways: seq<Way>, before: seq<Capture>) {
    match r
    case End(e) => ways != [] && ways[0] == Way(e, after)
    case NoMatch => ways == [] && after == before
    case Failed(error) => error == TooComplex || (ways != [] && ways[0] == Fault(error))
  }

  class MatchState {
    const src: seq<byte>
    const pat: seq<byte>
    var depth: nat
    var level: nat
    const capture: array<Capture>

    constructor (src: seq<byte>, pat: seq<byte>)
      ensures Valid() && this.src == src && this.pat == pat && fresh(capture)
    {
      this.src, this.pat := src, pat;
      depth, level := 0, 0;
      capture := new Capture[MAX_CAPTURES](_ => Capture(0, 0));
    }

    ghost predicate Valid()
      reads this
    {
      capture.Length == MAX_CAPTURES && level <= MAX_CAPTURES
    }

    /** The captures started so far. */
    ghost function Caps(): seq<Capture>
      requires Valid()
      reads this, capture
    {
      capture[..level]
    }

    method Reset()
      requires Valid()
      modifies this
      ensures Valid() && Caps() == [] && depth == MAX_MATCH_CALLS
    {
      level, depth := 0, MAX_MATCH_CALLS;
    }

    // ---------- Classes ----------

    /** Finds what ClassEndOf defines. */
    method ClassEnd(p: nat) returns (end: Pattern.ClassEnd)
      requires p < |pat|
      ensures end == ClassEndOf(pat, p)
    {
      var c, p := pat[p], p + 1;
      if Is(c, '%') {
        return if p >= |pat| then BadClass(EndsWithPercent) else EndsAt(p + 1);
      }
      if Is(c, '[') {
        if Is(At(pat, p), '^') {
          p := p + 1;
        }
        ghost var start := p;
        while true
          invariant SetEnd(pat, p) == SetEnd(pat, start)
          decreases |pat| - p
        {
          if p >= |pat| {
            return BadClass(MissingBracket);
          }
          var c := pat[p];
          p := p + 1;
          if Is(c, '%') && p < |pat| {
            p := p + 1;
          }
          if Is(At(pat, p), ']') {
            return EndsAt(p + 1);
          }
        }
      }
      return EndsAt(p);
    }

    /** Goes through a set's items up to its closing bracket at ec. */
    method MatchBracketClass(c: byte, p: nat, ec: nat) returns (found: bool)
      requires p < ec < |pat|
      ensures found == InSet(pat, p, ec, c)
    {
      var sig, p := true, p;
      if Is(At(pat, p + 1), '^') {
        sig := false;
        p := p + 1;
      }
      p := p + 1;
      ghost var start := p;
      while p < ec
        invariant SetHas(SetItems(pat, p, ec), c) == SetHas(SetItems(pat, start, ec), c)
        decreases ec - p
      {
        SetHasFirst(pat, p, ec, c);
        if Is(pat[p], '%') {
          p := p + 1;
          if MatchClass(c, At(pat, p)) {
            return sig;
          }
        } else if Is(At(pat, p + 1), '-') && p + 2 < ec {
          p := p + 2;
          if pat[p - 2] <= c <= pat[p] {
            return sig;
          }
        } else if pat[p] == c {
          return sig;
        }
        p := p + 1;
      }
      return !sig;
    }

    lemma SetHasFirst(pat: seq<byte>, p: nat, ec: nat, c: byte)
      requires p < ec <= |pat|
      ensures
        var items := SetItems(pat, p, ec);
        && items != [] && (SetHas(items, c) <==> ItemHas(items[0], c) || SetHas(items[1..], c))
    {
    }

    method SingleMatch(s: nat, p: nat, ep: nat) returns (found: bool)
      requires p < |pat| && ClassEndOf(pat, p) == EndsAt(ep)
      ensures found == Single(src, pat, s, p, ep) && (found ==> s < |src|)
    {
      if s >= |src| {
        return false;
      }
      var c := src[s];
      if Is(pat[p], '.') {
        return true;
      } else if Is(pat[p], '%') {
        return MatchClass(c, At(pat, p + 1));
      } else if Is(pat[p], '[') {
        found := MatchBracketClass(c, p, ep - 1);
        return;
      }
      return pat[p] == c;
    }

    /** The end of the balanced string at s whose ends are at p. */
    method MatchBalance(s: nat, p: nat) returns (end: Option<nat>)
      requires p + 1 < |pat|
      ensures end == Balance(src, pat, s, p)
      ensures end.Some? ==> s < end.value <= |src|
    {
      if At(src, s) != pat[p] {
        return None;
      }
      var b, e, cont, s := pat[p], pat[p + 1], 1, s + 1;
      ghost var start := s;
      while s < |src|
        invariant cont >= 1 && start <= s && BalanceEnd(src, s, b, e, cont) == BalanceEnd(src, start, b, e, 1)
      {
        if src[s] == e {
          cont := cont - 1;
          if cont == 0 {
            return Some(s + 1);
          }
        } else if src[s] == b {
          cont := cont + 1;
        }
        s := s + 1;
      }
      return None;
    }

    // ---------- Matching ----------

    /** Positions are in range, and captures so far end by s. */
    ghost predicate Ready(s: nat, p: nat)
      reads this, capture
    {
      Valid() && s <= |src| && p <= |pat| && CapsValid(Caps(), s)
    }

    /** What a match attempt from s and p, with captures before, has come to. */
    ghost predicate Done(r: Outcome, s: nat, p: nat, before: seq<Capture>, depthBefore: nat)
      reads this, capture
    {
      && Valid() && Answers(r, Caps(), Ways(src, pat, s, p, before), before)
      && (!r.Failed? ==> depth == depthBefore)
      && (r.End? ==> s <= r.e <= |src| && CapsValid(Caps(), r.e))
    }

    /** Depth enough for whatever is left of the pattern. */
    ghost predicate DeepEnough(p: nat, depth: nat) {
      depth + p > |pat|
    }

    /** The first way from here, within the depth that is left. */
    method Match(s: nat, p: nat) returns (r: Outcome)
      requires Ready(s, p)
      modifies this, capture
      ensures Done(r, s, p, old(Caps()), old(depth))
      ensures DeepEnough(p, old(depth)) ==> r != Failed(TooComplex)
      decreases |pat| - p, 3
    {
      if depth == 0 {
        return Failed(TooComplex);
      }
      depth := depth - 1;
      r := DoMatch(s, p);
      if r.Failed? {
        return;
      }
      depth := depth + 1;
    }

    method StartCapture(s: nat, p: nat, what: int) returns (r: Outcome)
      requires Ready(s, p) && what in {CAP_UNFINISHED, CAP_POSITION}
      modifies this, capture
      ensures Valid() && (!r.Failed? ==> depth == old(depth))
      ensures Answers(r, Caps(),
        if |old(Caps())| >= MAX_CAPTURES then [Fault(TooManyCaptures)]
        else Ways(src, pat, s, p, old(Caps()) + [Capture(s, what)]), old(Caps()))
      ensures r.End? ==> s <= r.e <= |src| && CapsValid(Caps(), r.e)
      ensures DeepEnough(p, old(depth)) ==> r != Failed(TooComplex)
      decreases |pat| - p, 4
    {
      if level >= MAX_CAPTURES {
        return Failed(TooManyCaptures);
      }
      capture[level] := Capture(s, what);
      level := level + 1;
      assert Caps() == old(Caps()) + [Capture(s, what)];
      r := Match(s, p);
      if r == NoMatch {
        level := level - 1;
        assert Caps() == old(Caps());
      }
    }

    method EndCapture(s: nat, p: nat) returns (r: Outcome)
      requires Ready(s, p)
      modifies this, capture
      ensures Valid() && (!r.Failed? ==> depth == old(depth))
      ensures
        var caps := old(Caps());
        var l := ToClose(caps);
        Answers(r, Caps(), if l < 0 then [Fault(InvalidPatternCapture)]
                           else Ways(src, pat, s, p, caps[l := Capture(caps[l].init, s - caps[l].init)]), caps)
      ensures r.End? ==> s <= r.e <= |src| && CapsValid(Caps(), r.e)
      ensures DeepEnough(p, old(depth)) ==> r != Failed(TooComplex)
      decreases |pat| - p, 4
    {
      ghost var caps := Caps();
      var l := CaptureToClose();
      if l < 0 {
        return Failed(InvalidPatternCapture);
      }
      assert CapValid(caps[l], s);
      capture[l] := Capture(capture[l].init, s - capture[l].init);
      assert Caps() == caps[l := Capture(caps[l].init, s - caps[l].init)];
      r := Match(s, p);
      if r == NoMatch {
        capture[l] := Capture(capture[l].init, CAP_UNFINISHED);
        assert Caps() == caps;
      }
    }

    method CaptureToClose() returns (l: int)
      requires Valid()
      ensures l == ToClose(Caps())
    {
      l := level - 1;
      ghost var caps := Caps();
      while l >= 0
        invariant -1 <= l < level && ToClose(caps[..l + 1]) == ToClose(caps)
      {
        if capture[l].len == CAP_UNFINISHED {
          return;
        }
        assert caps[..l + 1][..l] == caps[..l];
        l := l - 1;
      }
    }

    method CountSingles(s: nat, p: nat, ep: nat) returns (i: nat)
      requires s <= |src| && p < |pat| && ClassEndOf(pat, p) == EndsAt(ep)
      ensures i == Repeats(src, pat, s, p, ep) && s + i <= |src|
    {
      i := 0;
      var found := SingleMatch(s, p, ep);
      while found
        invariant s + i <= |src| && found == Single(src, pat, s + i, p, ep)
        invariant Repeats(src, pat, s, p, ep) == i + Repeats(src, pat, s + i, p, ep)
        decreases |src| - s - i
      {
        i := i + 1;
        found := SingleMatch(s + i, p, ep);
      }
    }

    /** As many repetitions as match, then fewer and fewer, from the item's first
        place on. */
    method MaxExpand(s: nat, p: nat, ep: nat) returns (r: Outcome)
      requires Ready(s, p) && p < |pat| && ClassEndOf(pat, p) == EndsAt(ep) && ep < |pat|
      modifies this, capture
      ensures Valid() && (!r.Failed? ==> depth == old(depth))
      ensures Answers(r, Caps(), Most(src, pat, s, s + Repeats(src, pat, s, p, ep), ep + 1, old(Caps())), old(Caps()))
      ensures r.End? ==> s <= r.e <= |src| && CapsValid(Caps(), r.e)
      ensures DeepEnough(ep + 1, old(depth)) ==> r != Failed(TooComplex)
      decreases |pat| - p, 0
    {
      hide Ways, Most, Repeats, Single, ClassEndOf, CapsValid;
      var i := CountSingles(s, p, ep);
      r := MatchFewer(s, i, ep + 1);
    }

    /** The rest after n characters, then after fewer and fewer. */
    method MatchFewer(s: nat, n: nat, p: nat) returns (r: Outcome)
      requires Ready(s, p) && s + n <= |src|
      modifies this, capture
      ensures Valid() && (!r.Failed? ==> depth == old(depth))
      ensures Answers(r, Caps(), Most(src, pat, s, s + n, p, old(Caps())), old(Caps()))
      ensures r.End? ==> s <= r.e <= |src| && CapsValid(Caps(), r.e)
      ensures DeepEnough(p, old(depth)) ==> r != Failed(TooComplex)
      decreases |pat| - p, 4
    {
      hide Ways, CapsValid;
      ghost var caps := Caps();
      var i: int := n;
      while i >= 0
        invariant -1 <= i <= n && Valid() && Caps() == caps && depth == old(depth)
        invariant Most(src, pat, s, s + n, p, caps) == if i < 0 then [] else Most(src, pat, s, s + i, p, caps)
      {
        Later(caps, s, s + i);
        r := Match(s + i, p);
        if r != NoMatch {
          return;
        }
        i := i - 1;
      }
      return NoMatch;
    }

    lemma Later(caps: seq<Capture>, s: nat, t: nat)
      requires CapsValid(caps, s) && s <= t
      ensures CapsValid(caps, t)
    {
    }

    /** The rest first, then with one more repetition at a time. */
    method MinExpand(first: nat, p: nat, ep: nat) returns (r: Outcome)
      requires Ready(first, p) && p < |pat| && ClassEndOf(pat, p) == EndsAt(ep) && ep < |pat|
      modifies this, capture
      ensures Valid() && (!r.Failed? ==> depth == old(depth))
      ensures Answers(r, Caps(), Least(src, pat, first, first + Repeats(src, pat, first, p, ep), ep + 1, old(Caps())), old(Caps()))
      ensures r.End? ==> first <= r.e <= |src| && CapsValid(Caps(), r.e)
      ensures DeepEnough(ep + 1, old(depth)) ==> r != Failed(TooComplex)
      decreases |pat| - p, 0
    {
      hide Ways, Single, ClassEndOf, CapsValid;
      var s := first;
      ghost var caps, last := Caps(), first + Repeats(src, pat, first, p, ep);
      while true
        invariant first <= s <= |src| && Valid() && Caps() == caps && depth == old(depth)
        invariant last == s + Repeats(src, pat, s, p, ep)
        invariant Least(src, pat, first, last, ep + 1, caps) == Least(src, pat, s, last, ep + 1, caps)
        decreases |src| - s
      {
        Later(caps, first, s);
        r := Match(s, ep + 1);
        if r != NoMatch {
          return;
        }
        var found := SingleMatch(s, p, ep);
        if !found {
          return NoMatch;
        }
        s := s + 1;
      }
    }

    /** The end of a capture's text at s, where it is there again. */
    method MatchCapture(s: nat, l: nat) returns (end: Option<nat>)
      requires Ready(s, 0) && Referable(Caps(), l)
      ensures end == if Again(src, s, Caps()[l]) then Some(s + Caps()[l].len) else None
      ensures end.Some? ==> s <= end.value <= |src|
    {
      var c := capture[l];
      assert CapValid(Caps()[l], s);
      if c.len >= 0 && |src| - s >= c.len && src[c.init..c.init + c.len] == src[s..s + c.len] {
        return Some(s + c.len);
      }
      return None;
    }

    /** Whether a frontier with the set at p is at s, and the set's end. */
    method MatchFrontier(s: nat, p: nat) returns (end: Pattern.ClassEnd, found: bool)
      requires s <= |src| && p < |pat| && Is(pat[p], '[')
      ensures end == ClassEndOf(pat, p) && (end.EndsAt? ==> found == Frontier(src, pat, s, p, end.p - 1))
    {
      found := false;
      end := ClassEnd(p);
      if end.BadClass? {
        return;
      }
      var previous := if s > 0 then src[s - 1] else 0;
      found := MatchBracketClass(previous, p, end.p - 1);
      if found {
        found := false;
      } else {
        found := MatchBracketClass(At(src, s), p, end.p - 1);
      }
    }

    /** A single-character class at p that ends at ep, and an optional suffix:
        what it comes to, or else where to go on. */
    method MatchItem(s: nat, p: nat, ep: nat) returns (r: Outcome, done: bool, s': nat, p': nat)
      requires Ready(s, p) && p < |pat| && Plain(pat, p) && ClassEndOf(pat, p) == EndsAt(ep)
      modifies this, capture
      ensures if done then Done(r, s, p, old(Caps()), old(depth))
              else Ready(s', p') && s <= s' && p < p' && Caps() == old(Caps()) && depth == old(depth)
                   && Ways(src, pat, s', p', old(Caps())) == Ways(src, pat, s, p, old(Caps()))
      ensures DeepEnough(p, old(depth) + 1) && done ==> r != Failed(TooComplex)
      decreases |pat| - p, 1
    {
      hide Ways, Most, Least, Repeats, Single, ClassEndOf, CapsValid;
      r, done, s', p' := NoMatch, true, s, p;
      WaysOfItem(src, pat, s, p, ep, Caps());
      var c := At(pat, ep);
      var single := SingleMatch(s, p, ep);
      if !single {
        SkipItem(src, pat, s, p, ep, Caps());
        if Is(c, '*') || Is(c, '?') || Is(c, '-') {
          done, p' := false, ep + 1;
        }
        return;
      }
      Later(Caps(), s, s + 1);
      if Is(c, '?') {
        r := Match(s + 1, ep + 1);
        if r != NoMatch {
          return;
        }
        done, p' := false, ep + 1;
      } else if Is(c, '+') {
        r := MaxExpand(s + 1, p, ep);
      } else if Is(c, '*') {
        r := MaxExpand(s, p, ep);
      } else if Is(c, '-') {
        r := MinExpand(s, p, ep);
      } else {
        done, s', p' := false, s + 1, ep;
      }
    }

    /** What a special item other than a capture's parentheses comes to, or else
        where to go on. */
    method MatchSpecial(s: nat, p: nat) returns (r: Outcome, done: bool, s': nat, p': nat)
      requires Ready(s, p) && p < |pat| && !Plain(pat, p) && !Is(pat[p], '(') && !Is(pat[p], ')')
      ensures if done then Done(r, s, p, Caps(), depth) && r != Failed(TooComplex)
              else Ready(s', p') && s <= s' && p < p'
                   && Ways(src, pat, s', p', Caps()) == Ways(src, pat, s, p, Caps())
    {
      hide Ways, ClassEndOf, Balance, Frontier, Again, CapsValid;
      WaysOfSpecial(src, pat, s, p, Caps());
      r, done, s', p' := NoMatch, true, s, p;
      if Is(pat[p], '$') {
        if s == |src| {
          r := End(s);
        }
      } else if Is(At(pat, p + 1), 'b') {
        if p + 3 >= |pat| {
          return Failed(MissingBalanceArguments), true, s, p;
        }
        var end := MatchBalance(s, p + 2);
        if end.Some? {
          Later(Caps(), s, end.value);
          done, s', p' := false, end.value, p + 4;
        }
      } else if Is(At(pat, p + 1), 'f') {
        if !Is(At(pat, p + 2), '[') {
          return Failed(MissingFrontierSet), true, s, p;
        }
        var end, found := MatchFrontier(s, p + 2);
        if end.BadClass? {
          r := Failed(end.error);
        } else if found {
          done, p' := false, end.p;
        }
      } else {
        var l := At(pat, p + 1) - '1' as int;
        if l < 0 || l >= level || capture[l].len == CAP_UNFINISHED {
          return Failed(InvalidCaptureIndex), true, s, p;
        }
        var end := MatchCapture(s, l);
        if end.Some? {
          Later(Caps(), s, end.value);
          done, s', p' := false, end.value, p + 2;
        }
      }
    }

    /** One matching loop: each turn either comes to an outcome, or goes on further
        in the pattern with the same ways. */
    method DoMatch(s0: nat, p0: nat) returns (r: Outcome)
      requires Ready(s0, p0)
      modifies this, capture
      ensures Done(r, s0, p0, old(Caps()), old(depth))
      ensures DeepEnough(p0, old(depth) + 1) ==> r != Failed(TooComplex)
      decreases |pat| - p0, 2
    {
      hide Repeats, Single, InSet, ClassEndOf, Most, Least, Balance, Again, Referable;
      var s, p := s0, p0;
      while p < |pat|
        invariant Ready(s, p) && s0 <= s && p0 <= p && Caps() == old(Caps()) && depth == old(depth)
        invariant Ways(src, pat, s, p, old(Caps())) == Ways(src, pat, s0, p0, old(Caps()))
        decreases |pat| - p
      {
        if Is(pat[p], '(') {
          if Is(At(pat, p + 1), ')') {
            r := StartCapture(s, p + 2, CAP_POSITION);
          } else {
            r := StartCapture(s, p + 1, CAP_UNFINISHED);
          }
          return;
        } else if Is(pat[p], ')') {
          r := EndCapture(s, p + 1);
          return;
        }
        var done;
        if Plain(pat, p) {
          var ep := ClassEnd(p);
          if ep.BadClass? {
            return Failed(ep.error);
          }
          r, done, s, p := MatchItem(s, p, ep.p);
        } else {
          r, done, s, p := MatchSpecial(s, p);
        }
        if done {
          return;
        }
      }
      return End(s);
    }
  }
}
