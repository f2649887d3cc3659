/** Lua patterns: what a pattern matches, as the list of all the ways it can, in
    order of preference. */
module Pattern {
  import opened Wrappers

  type byte = b: int | 0 <= b < 256

  const MAX_CAPTURES := 32
  const MAX_MATCH_CALLS := 200
  const CAP_UNFINISHED := -1
  const CAP_POSITION := -2

  datatype Error = InvalidCaptureIndex | InvalidPatternCapture | EndsWithPercent | MissingBracket
                 | MissingBalanceArguments | TooManyCaptures | MissingFrontierSet | TooComplex | UnfinishedCapture

  /** A text's byte, and 0 from its end on. */
  function At(text: seq<byte>, i: nat): byte {
    if i < |text| then text[i] else 0
  }

  // ---------- Classes ----------

  predicate Is(b: byte, c: char) {
    b == c as int
  }

  predicate Between(lo: char, b: byte, hi: char) {
    lo as int <= b <= hi as int
  }

  function ToLower(c: byte): byte {
    if Between('A', c, 'Z') then c + 32 else c
  }

  predicate IsAlpha(c: byte) {
    Between('a', ToLower(c), 'z')
  }

  predicate IsDigit(c: byte) {
    Between('0', c, '9')
  }

  predicate IsGraph(c: byte) {
    Between('!', c, '~')
  }

  /** Membership in a letter's class, for the letters that have one. */
  function LetterClass(c: byte, letter: byte): Option<bool> {
    if Is(letter, 'a') then Some(IsAlpha(c))
    else if Is(letter, 'c') then Some(c < 32 || c == 0x7f)
    else if Is(letter, 'd') then Some(IsDigit(c))
    else if Is(letter, 'g') then Some(IsGraph(c))
    else if Is(letter, 'l') then Some(Between('a', c, 'z'))
    else if Is(letter, 'p') then Some(IsGraph(c) && !IsAlpha(c) && !IsDigit(c))
    else if Is(letter, 's') then Some(c == 32 || 9 <= c <= 13)
    else if Is(letter, 'u') then Some(Between('A', c, 'Z'))
    else if Is(letter, 'w') then Some(IsAlpha(c) || IsDigit(c))
    else if Is(letter, 'x') then Some(IsDigit(c) || Between('a', ToLower(c), 'f'))
    else if Is(letter, 'z') then Some(c == 0)
    else None
  }

  /** Membership in %cl: capitals complement, and other bytes stand for
      themselves. */
  predicate MatchClass(c: byte, cl: byte) {
    match LetterClass(c, ToLower(cl))
    case None => cl == c
    case Some(res) => if Between('a', cl, 'z') then res else !res
  }

  // ---------- Sets ----------

  datatype SetItem = Class(cl: byte) | Range(lo: byte, hi: byte) | Just(b: byte)

  predicate ItemHas(item: SetItem, c: byte) {
    match item
    case Class(cl) => MatchClass(c, cl)
    case Range(lo, hi) => lo <= c <= hi
    case Just(b) => b == c
  }

  /** The items of a set from p to its ']' at ec. */
  function SetItems(pat: seq<byte>, p: nat, ec: nat): seq<SetItem>
    requires ec <= |pat|
    decreases ec - p
  {
    if p >= ec then []
    else if Is(pat[p], '%') then [Class(At(pat, p + 1))] + SetItems(pat, p + 2, ec)
    else if Is(At(pat, p + 1), '-') && p + 2 < ec then [Range(pat[p], pat[p + 2])] + SetItems(pat, p + 3, ec)
    else [Just(pat[p])] + SetItems(pat, p + 1, ec)
  }

  predicate SetHas(items: seq<SetItem>, c: byte) {
    exists i :: 0 <= i < |items| && ItemHas(items[i], c)
  }

  /** Membership in a set between its brackets. */
  predicate InSet(pat: seq<byte>, p: nat, ec: nat, c: byte)
    requires ec <= |pat|
  {
    if Is(At(pat, p + 1), '^') then !SetHas(SetItems(pat, p + 2, ec), c) else SetHas(SetItems(pat, p + 1, ec), c)
  }

  // ---------- Single characters ----------

  /** The end of a set, from p inside it, past its ']'. */
  function SetEnd(pat: seq<byte>, p: nat): (end: Option<nat>)
    ensures end.Some? ==> p + 1 < end.value <= |pat|
    decreases |pat| - p
  {
    if p >= |pat| then None
    else
      var next := if Is(pat[p], '%') && p + 1 < |pat| then p + 2 else p + 1;
      if next < |pat| && Is(pat[next], ']') then Some(next + 1) else SetEnd(pat, next)
  }

  /** Where a single-character class ends, or why it does not. */
  datatype ClassEnd = EndsAt(p: nat) | BadClass(error: Error)

  function ClassEndOf(pat: seq<byte>, p: nat): (end: ClassEnd)
    requires p < |pat|
    ensures end.EndsAt? ==> p < end.p <= |pat|
    ensures end.EndsAt? && Is(pat[p], '[') ==> p + 2 < end.p
    ensures end.BadClass? ==> end.error in {EndsWithPercent, MissingBracket}
  {
    if Is(pat[p], '%') then
      if p + 1 >= |pat| then BadClass(EndsWithPercent) else EndsAt(p + 2)
    else if Is(pat[p], '[') then
      match SetEnd(pat, if Is(At(pat, p + 1), '^') then p + 2 else p + 1)
      case None => BadClass(MissingBracket)
      case Some(end) => EndsAt(end)
    else EndsAt(p + 1)
  }

  /** Whether the subject's character at s is in the class from p to ep. */
  predicate Single(src: seq<byte>, pat: seq<byte>, s: nat, p: nat, ep: nat)
    requires p < ep <= |pat|
  {
    && s < |src|
    && (if Is(pat[p], '.') then true
        else if Is(pat[p], '%') then MatchClass(src[s], At(pat, p + 1))
        else if Is(pat[p], '[') then InSet(pat, p, ep - 1, src[s])
        else pat[p] == src[s])
  }

  /** How many characters from s on are in the class. */
  function Repeats(src: seq<byte>, pat: seq<byte>, s: nat, p: nat, ep: nat): (n: nat)
    requires p < ep <= |pat|
    ensures s <= |src| ==> s + n <= |src|
    decreases |src| - s
  {
    if Single(src, pat, s, p, ep) then 1 + Repeats(src, pat, s + 1, p, ep) else 0
  }

  // ---------- What a pattern matches ----------

  /** A capture: where it starts, and its length or what stands for it. */
  datatype Capture = Capture(init: int, len: int)

  /** One way to match: the end and the captures, or an error met on the way. */
  datatype Way = Way(end: nat, caps: seq<Capture>) | Fault(error: Error)

  /** The last capture not finished. */
  function ToClose(caps: seq<Capture>): (l: int)
    ensures -1 <= l < |caps|
    ensures l >= 0 ==> caps[l].len == CAP_UNFINISHED
    ensures forall i :: l < i < |caps| ==> caps[i].len != CAP_UNFINISHED
  {
    if caps == [] then -1
    else if caps[|caps| - 1].len == CAP_UNFINISHED then |caps| - 1
    else ToClose(caps[..|caps| - 1])
  }

  /** The end of a balanced string from s that starts with b and ends with e,
      in which count are open, from s on. */
  function BalanceEnd(src: seq<byte>, s: nat, b: byte, e: byte, count: nat): (end: Option<nat>)
    ensures end.Some? ==> s < end.value <= |src|
    decreases |src| - s
  {
    if s >= |src| then None
    else if src[s] == e then (if count <= 1 then Some(s + 1) else BalanceEnd(src, s + 1, b, e, count - 1))
    else BalanceEnd(src, s + 1, b, e, if src[s] == b then count + 1 else count)
  }

  function Balance(src: seq<byte>, pat: seq<byte>, s: nat, p: nat): Option<nat>
    requires p + 1 < |pat|
  {
    if At(src, s) != pat[p] then None else BalanceEnd(src, s + 1, pat[p], pat[p + 1], 1)
  }

  /** A capture that a reference may be to. */
  predicate Referable(caps: seq<Capture>, l: int) {
    0 <= l < |caps| && caps[l].len != CAP_UNFINISHED
  }

  /** The subject has the capture's text again at s. */
  predicate Again(src: seq<byte>, s: nat, c: Capture) {
    && c.len >= 0 && c.init >= 0 && c.init + c.len <= |src| && s + c.len <= |src|
    && src[c.init..c.init + c.len] == src[s..s + c.len]
  }

  /** Matches end where they start or later, in the subject. */
  predicate EndWithin(ways: seq<Way>, s: nat, n: nat) {
    forall w :: w in ways && w.Way? ==> s <= w.end <= n
  }

  /** All the ways that the pattern from p matches the subject from s, with the
      captures so far, the preferred first. */
  function Ways(src: seq<byte>, pat: seq<byte>, s: nat, p: nat, caps: seq<Capture>): (ways: seq<Way>)
    ensures s <= |src| ==> EndWithin(ways, s, |src|)
    decreases |pat| - p, 0
  {
    if p >= |pat| then [Way(s, caps)]
    else if Is(pat[p], '(') then
      var position := Is(At(pat, p + 1), ')');
      if |caps| >= MAX_CAPTURES then [Fault(TooManyCaptures)]
      else if position then Ways(src, pat, s, p + 2, caps + [Capture(s, CAP_POSITION)])
      else Ways(src, pat, s, p + 1, caps + [Capture(s, CAP_UNFINISHED)])
    else if Is(pat[p], ')') then
      var l := ToClose(caps);
      if l < 0 then [Fault(InvalidPatternCapture)]
      else Ways(src, pat, s, p + 1, caps[l := Capture(caps[l].init, s - caps[l].init)])
    else if Is(pat[p], '$') && p + 1 == |pat| then
      if s == |src| then [Way(s, caps)] else []
    else if Is(pat[p], '%') && Is(At(pat, p + 1), 'b') then
      if p + 3 >= |pat| then [Fault(MissingBalanceArguments)]
      else (match Balance(src, pat, s, p + 2)
            case None => []
            case Some(end) => Ways(src, pat, end, p + 4, caps))
    else if Is(pat[p], '%') && Is(At(pat, p + 1), 'f') then
      if !Is(At(pat, p + 2), '[') then [Fault(MissingFrontierSet)]
      else (match ClassEndOf(pat, p + 2)
            case BadClass(error) => [Fault(error)]
            case EndsAt(ep) => if Frontier(src, pat, s, p + 2, ep - 1) then Ways(src, pat, s, ep, caps) else [])
    else if Is(pat[p], '%') && IsDigit(At(pat, p + 1)) then
      var l := At(pat, p + 1) - '1' as int;
      if !Referable(caps, l) then [Fault(InvalidCaptureIndex)]
      else if Again(src, s, caps[l]) then Ways(src, pat, s + caps[l].len, p + 2, caps) else []
    else match ClassEndOf(pat, p)
      case BadClass(error) => [Fault(error)]
      case EndsAt(ep) =>
        var c := At(pat, ep);
        if Is(c, '?') then
          (if Single(src, pat, s, p, ep) then Ways(src, pat, s + 1, ep + 1, caps) else []) + Ways(src, pat, s, ep + 1, caps)
        else if Is(c, '+') then
          if Single(src, pat, s, p, ep) then Most(src, pat, s + 1, s + 1 + Repeats(src, pat, s + 1, p, ep), ep + 1, caps) else []
        else if Is(c, '*') then Most(src, pat, s, s + Repeats(src, pat, s, p, ep), ep + 1, caps)
        else if Is(c, '-') then Least(src, pat, s, s + Repeats(src, pat, s, p, ep), ep + 1, caps)
        else if Single(src, pat, s, p, ep) then Ways(src, pat, s + 1, ep, caps) else []
  }

  /** No special item is at p: a single-character class is. */
  predicate Plain(pat: seq<byte>, p: nat) {
    && p < |pat| && !Is(pat[p], '(') && !Is(pat[p], ')') && !(Is(pat[p], '$') && p + 1 == |pat|)
    && !(Is(pat[p], '%') && (Is(At(pat, p + 1), 'b') || Is(At(pat, p + 1), 'f') || IsDigit(At(pat, p + 1))))
  }

  /** The ways of a single-character class with an optional suffix. */
  function ItemWays(src: seq<byte>, pat: seq<byte>, s: nat, p: nat, ep: nat, caps: seq<Capture>): seq<Way>
    requires p < ep <= |pat|
  {
    var c, single := At(pat, ep), Single(src, pat, s, p, ep);
    if Is(c, '?') then (if single then Ways(src, pat, s + 1, ep + 1, caps) else []) + Ways(src, pat, s, ep + 1, caps)
    else if Is(c, '+') then
      if single then Most(src, pat, s + 1, s + 1 + Repeats(src, pat, s + 1, p, ep), ep + 1, caps) else []
    else if Is(c, '*') then Most(src, pat, s, s + Repeats(src, pat, s, p, ep), ep + 1, caps)
    else if Is(c, '-') then Least(src, pat, s, s + Repeats(src, pat, s, p, ep), ep + 1, caps)
    else if single then Ways(src, pat, s + 1, ep, caps) else []
  }

  lemma WaysOfItem(src: seq<byte>, pat: seq<byte>, s: nat, p: nat, ep: nat, caps: seq<Capture>)
    requires Plain(pat, p) && ClassEndOf(pat, p) == EndsAt(ep)
    ensures Ways(src, pat, s, p, caps) == ItemWays(src, pat, s, p, ep, caps)
  {
  }

  /** The ways of a special item other than a capture's parentheses. */
  lemma WaysOfSpecial(src: seq<byte>, pat: seq<byte>, s: nat, p: nat, caps: seq<Capture>)
    requires p < |pat| && !Plain(pat, p) && !Is(pat[p], '(') && !Is(pat[p], ')')
    ensures Ways(src, pat, s, p, caps) ==
      if Is(pat[p], '$') then (if s == |src| then [Way(s, caps)] else [])
      else if Is(At(pat, p + 1), 'b') then
        if p + 3 >= |pat| then [Fault(MissingBalanceArguments)]
        else (match Balance(src, pat, s, p + 2)
              case None => []
              case Some(end) => Ways(src, pat, end, p + 4, caps))
      else if Is(At(pat, p + 1), 'f') then
        if !Is(At(pat, p + 2), '[') then [Fault(MissingFrontierSet)]
        else (match ClassEndOf(pat, p + 2)
              case BadClass(error) => [Fault(error)]
              case EndsAt(ep) => if Frontier(src, pat, s, p + 2, ep - 1) then Ways(src, pat, s, ep, caps) else [])
      else
        var l := At(pat, p + 1) - '1' as int;
        if !Referable(caps, l) then [Fault(InvalidCaptureIndex)]
        else if Again(src, s, caps[l]) then Ways(src, pat, s + caps[l].len, p + 2, caps) else []
  {
  }

  /** An item that may match nothing goes on after its suffix. */
  lemma SkipItem(src: seq<byte>, pat: seq<byte>, s: nat, p: nat, ep: nat, caps: seq<Capture>)
    requires p < ep <= |pat| && !Single(src, pat, s, p, ep)
    ensures ItemWays(src, pat, s, p, ep, caps) ==
            if Is(At(pat, ep), '*') || Is(At(pat, ep), '?') || Is(At(pat, ep), '-') then Ways(src, pat, s, ep + 1, caps) else []
  {
  }

  /** Between a character outside the set and one in it. */
  predicate Frontier(src: seq<byte>, pat: seq<byte>, s: nat, p: nat, ec: nat)
    requires ec <= |pat|
  {
    !InSet(pat, p, ec, if 0 < s <= |src| then src[s - 1] else 0) && InSet(pat, p, ec, At(src, s))
  }

  /** The rest from the last place a repetition gets to, then from earlier and
      earlier ones, down to first. */
  function Most(src: seq<byte>, pat: seq<byte>, first: nat, last: nat, p: nat, caps: seq<Capture>): (ways: seq<Way>)
    requires first <= last
    ensures last <= |src| ==> EndWithin(ways, first, |src|)
    decreases |pat| - p, last - first + 1
  {
    Ways(src, pat, last, p, caps) + if last == first then [] else Most(src, pat, first, last - 1, p, caps)
  }

  /** The rest from the first place, then from later and later ones. */
  function Least(src: seq<byte>, pat: seq<byte>, first: nat, last: nat, p: nat, caps: seq<Capture>): (ways: seq<Way>)
    requires first <= last
    ensures last <= |src| ==> EndWithin(ways, first, |src|)
    decreases |pat| - p, last - first + 1
  {
    Ways(src, pat, first, p, caps) + if first == last then [] else Least(src, pat, first + 1, last, p, caps)
  }

  /** The rest matches from s, first in this way. */
  predicate Picks(src: seq<byte>, pat: seq<byte>, s: nat, p: nat, caps: seq<Capture>, way: Way) {
    Ways(src, pat, s, p, caps) != [] && Ways(src, pat, s, p, caps)[0] == way
  }

  /** The rest matches from none of the places from lo up to hi. */
  predicate NoneFrom(src: seq<byte>, pat: seq<byte>, lo: nat, hi: nat, p: nat, caps: seq<Capture>) {
    forall s: nat :: lo <= s <= hi ==> Ways(src, pat, s, p, caps) == []
  }

  /** Repetition prefers the most for which the rest matches at all, if any. */
  lemma {:induction false} MostPrefersLongest(src: seq<byte>, pat: seq<byte>, first: nat, last: nat, p: nat, caps: seq<Capture>)
    requires first <= last
    ensures
      var ways := Most(src, pat, first, last, p, caps);
      if ways == [] then NoneFrom(src, pat, first, last, p, caps)
      else exists s: nat :: first <= s <= last && Picks(src, pat, s, p, caps, ways[0]) && NoneFrom(src, pat, s + 1, last, p, caps)
    decreases last - first
  {
    hide Ways;
    var ways, here := Most(src, pat, first, last, p, caps), Ways(src, pat, last, p, caps);
    if here != [] {
      assert Picks(src, pat, last, p, caps, ways[0]) && NoneFrom(src, pat, last + 1, last, p, caps);
    } else if first < last {
      assert ways == Most(src, pat, first, last - 1, p, caps);
      MostPrefersLongest(src, pat, first, last - 1, p, caps);
      if ways != [] {
        var s: nat :| first <= s <= last - 1 && Picks(src, pat, s, p, caps, ways[0]) && NoneFrom(src, pat, s + 1, last - 1, p, caps);
        assert NoneFrom(src, pat, s + 1, last, p, caps);
      }
    }
  }

  /** Minimal repetition prefers the fewest. */
  lemma {:induction false} LeastPrefersShortest(src: seq<byte>, pat: seq<byte>, first: nat, last: nat, p: nat, caps: seq<Capture>)
    requires first <= last
    ensures
      var ways := Least(src, pat, first, last, p, caps);
      if ways == [] then NoneFrom(src, pat, first, last, p, caps)
      else exists s: nat ::
        first <= s <= last && Picks(src, pat, s, p, caps, ways[0]) && (s > first ==> NoneFrom(src, pat, first, s - 1, p, caps))
    decreases last - first
  {
    hide Ways;
    var ways, here := Least(src, pat, first, last, p, caps), Ways(src, pat, first, p, caps);
    if here != [] {
      assert Picks(src, pat, first, p, caps, ways[0]);
    } else if first < last {
      assert ways == Least(src, pat, first + 1, last, p, caps);
      LeastPrefersShortest(src, pat, first + 1, last, p, caps);
      if ways != [] {
        var s: nat :| first + 1 <= s <= last && Picks(src, pat, s, p, caps, ways[0])
          && (s > first + 1 ==> NoneFrom(src, pat, first + 1, s - 1, p, caps));
        assert NoneFrom(src, pat, first, s - 1, p, caps);
      }
    }
  }
}
