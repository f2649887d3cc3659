/** Searching and replacing with patterns. */
module PatternSearch {
  import opened Wrappers
  import opened Pattern
  import opened PatternMatcher

  // ---------- Finding ----------

  /** What a search comes to: the leftmost match, none, or an error. */
  datatype Search = Found(start: nat, end: nat, caps: seq<Capture>) | NotFound | SearchError(error: Error)

  /** The pattern matches in no way from start up to s. */
  ghost predicate NoneBefore(src: seq<byte>, pat: seq<byte>, start: nat, s: nat) {
    forall t: nat :: start <= t < s ==> Ways(src, pat, t, 0, []) == []
  }

  /** The search's answer is the leftmost match, in the preferred way. */
  ghost predicate Leftmost(r: Search, src: seq<byte>, pat: seq<byte>, init: nat, anchor: bool) {
    match r
    case Found(start, end, caps) =>
      && init <= start && (anchor ==> start == init) && start <= end <= |src|
      && Ways(src, pat, start, 0, []) != [] && Ways(src, pat, start, 0, [])[0] == Way(end, caps)
      && NoneBefore(src, pat, init, start)
    case NotFound => NoneBefore(src, pat, init, if anchor then init + 1 else |src| + 1)
    case SearchError(error) =>
      || (error == TooComplex && |pat| >= 200)
      || exists s: nat :: init <= s <= |src| && NoneBefore(src, pat, init, s)
           && Ways(src, pat, s, 0, []) != [] && Ways(src, pat, s, 0, [])[0] == Fault(error)
  }

  /** Searches from init on; a '^' at the start of the pattern anchors it. */
  method Find(src: seq<byte>, p: seq<byte>, init: nat) returns (r: Search, anchor: bool, pat: seq<byte>)
    requires init <= |src|
    ensures anchor == (|p| > 0 && Is(p[0], '^')) && pat == if anchor then p[1..] else p
    ensures Leftmost(r, src, pat, init, anchor)
  {
    hide Ways, CapsValid;
    anchor, pat := |p| > 0 && Is(p[0], '^'), p;
    if anchor {
      pat := p[1..];
    }
    var ms := new MatchState(src, pat);
    var s := init;
    while true
      invariant init <= s <= |src| && (anchor ==> s == init) && ms.Valid() && ms.src == src && ms.pat == pat
      invariant fresh(ms) && fresh(ms.capture) && NoneBefore(src, pat, init, s)
      decreases |src| - s
    {
      ms.Reset();
      var m := ms.Match(s, 0);
      match m {
        case Failed(error) => return SearchError(error), anchor, pat;
        case End(e) => return Found(s, e, ms.capture[..ms.level]), anchor, pat;
        case NoMatch =>
      }
      if s >= |src| || anchor {
        break;
      }
      s := s + 1;
    }
    return NotFound, anchor, pat;
  }

  // ---------- Replacing ----------

  /** A piece of the subject: a byte copied, or a match replaced. */
  datatype Piece = Copy(s: nat) | Replace(s: nat, e: nat, caps: seq<Capture>)

  function StartOf(piece: Piece): nat {
    piece.s
  }

  function EndOf(piece: Piece): nat {
    if piece.Copy? then piece.s + 1 else piece.e
  }

  /** The pieces gsub takes the subject in, where it stops, and its error. */
  datatype Plan = Plan(pieces: seq<Piece>, end: nat, error: Option<Error>)

  function Prepend(first: Piece, rest: Plan): Plan {
    rest.(pieces := [first] + rest.pieces)
  }

  function Less(left: Option<nat>): Option<nat> {
    if left.Some? && left.value > 0 then Some(left.value - 1) else left
  }

  /** From s on: at each place the preferred match, unless it is empty where the
      last one ended, and otherwise a byte. */
  function PlanFrom(src: seq<byte>, pat: seq<byte>, anchor: bool, s: nat, last: int, left: Option<nat>): Plan
    requires s <= |src|
    decreases |src| - s, if last == s then 0 else 1
  {
    var ways := Ways(src, pat, s, 0, []);
    if left == Some(0) then Plan([], s, None)
    else if ways != [] && ways[0].Fault? then Plan([], s, Some(ways[0].error))
    else if ways != [] && ways[0].end != last then
      var first, e := Replace(s, ways[0].end, ways[0].caps), ways[0].end;
      if anchor then Plan([first], e, None) else Prepend(first, PlanFrom(src, pat, anchor, e, e, Less(left)))
    else if s < |src| then
      if anchor then Plan([Copy(s)], s + 1, None) else Prepend(Copy(s), PlanFrom(src, pat, anchor, s + 1, last, left))
    else Plan([], s, None)
  }

  /** The pieces follow one another from s to end. */
  ghost predicate Tiles(pieces: seq<Piece>, s: nat, end: nat) {
    if pieces == [] then s == end
    else StartOf(pieces[0]) == s && s <= EndOf(pieces[0]) && Tiles(pieces[1..], EndOf(pieces[0]), end)
  }

  function Matches(pieces: seq<Piece>): nat {
    if pieces == [] then 0 else (if pieces[0].Replace? then 1 else 0) + Matches(pieces[1..])
  }

  /** The pieces cover the subject in order, as many matches as asked for at
      most, and all of it unless stopped by that, an anchor or an error. */
  lemma {:induction false} PlanTiles(src: seq<byte>, pat: seq<byte>, anchor: bool, s: nat, last: int, left: Option<nat>)
    requires s <= |src|
    ensures
      var plan := PlanFrom(src, pat, anchor, s, last, left);
      && s <= plan.end <= |src| && Tiles(plan.pieces, s, plan.end)
      && (left.Some? ==> Matches(plan.pieces) <= left.value)
      && (plan.error.None? && !anchor && (left.Some? ==> Matches(plan.pieces) < left.value) ==> plan.end == |src|)
    decreases |src| - s, if last == s then 0 else 1
  {
    hide Ways;
    var ways := Ways(src, pat, s, 0, []);
    if left == Some(0) || (ways != [] && ways[0].Fault?) || anchor {
    } else if ways != [] && ways[0].end != last {
      var e := ways[0].end;
      PlanTiles(src, pat, anchor, e, e, Less(left));
      TilesPrepend(Replace(s, e, ways[0].caps), PlanFrom(src, pat, anchor, e, e, Less(left)), s);
    } else if s < |src| {
      PlanTiles(src, pat, anchor, s + 1, last, left);
      TilesPrepend(Copy(s), PlanFrom(src, pat, anchor, s + 1, last, left), s);
    }
  }

  lemma TilesPrepend(first: Piece, rest: Plan, s: nat)
    requires StartOf(first) == s <= EndOf(first) && Tiles(rest.pieces, EndOf(first), rest.end)
    ensures Tiles(Prepend(first, rest).pieces, s, rest.end)
    ensures Matches(Prepend(first, rest).pieces) == (if first.Replace? then 1 else 0) + Matches(rest.pieces)
  {
  }

  /** What is right at a place, with the last match ended at last: a match is replaced
      if it is the preferred one there and does not end where the last one did, and
      else one byte is copied. */
  ghost predicate Right(src: seq<byte>, pat: seq<byte>, piece: Piece, last: int) {
    var ways := Ways(src, pat, piece.s, 0, []);
    match piece
    case Replace(_, e, caps) => ways != [] && ways[0] == Way(e, caps) && e != last
    case Copy(s) => s < |src| && (ways != [] ==> ways[0].Way? && ways[0].end == last)
  }

  ghost predicate AllRight(src: seq<byte>, pat: seq<byte>, pieces: seq<Piece>, last: int) {
    pieces != [] ==>
      Right(src, pat, pieces[0], last) && AllRight(src, pat, pieces[1..], if pieces[0].Replace? then pieces[0].e else last)
  }

  /** Every piece is right, an anchored plan has at most one, and where a plan ends in
      an error the preferred way there is that error. */
  lemma {:induction false} PlanRight(src: seq<byte>, pat: seq<byte>, anchor: bool, s: nat, last: int, left: Option<nat>)
    requires s <= |src|
    ensures
      var plan := PlanFrom(src, pat, anchor, s, last, left);
      && AllRight(src, pat, plan.pieces, last) && (anchor ==> |plan.pieces| <= 1)
      && (plan.error.Some? ==> plan.end <= |src| && Ways(src, pat, plan.end, 0, []) != []
                               && Ways(src, pat, plan.end, 0, [])[0] == Fault(plan.error.value))
    decreases |src| - s, if last == s then 0 else 1
  {
    hide Ways;
    var ways := Ways(src, pat, s, 0, []);
    if left == Some(0) || (ways != [] && ways[0].Fault?) || anchor {
    } else if ways != [] && ways[0].end != last {
      PlanRight(src, pat, anchor, ways[0].end, ways[0].end, Less(left));
    } else if s < |src| {
      PlanRight(src, pat, anchor, s + 1, last, left);
    }
  }

  /** What a replacement gives for a match: text, or nothing to keep it. */
  type Replacement = (nat, nat, seq<Capture>) -> Option<seq<byte>>

  /** The pieces' text, with matches replaced. */
  function Render(src: seq<byte>, pieces: seq<Piece>, repl: Replacement): seq<byte> {
    if pieces == [] then []
    else
      var p, rest := pieces[|pieces| - 1], Render(src, pieces[..|pieces| - 1], repl);
      rest + PieceText(src, p, repl)
  }

  function PieceText(src: seq<byte>, p: Piece, repl: Replacement): seq<byte> {
    match p
    case Copy(s) => if s < |src| then [src[s]] else []
    case Replace(s, e, caps) =>
      match repl(s, e, caps)
      case Some(text) => text
      case None => if s <= e <= |src| then src[s..e] else []
  }

  /** A match that is replaced gives the replacement, and all else the text it covers. */
  lemma PieceGives(src: seq<byte>, p: Piece, repl: Replacement)
    requires p.Copy? ==> p.s < |src|
    requires p.Replace? ==> p.s <= p.e <= |src|
    ensures PieceText(src, p, repl) ==
      if p.Copy? then [src[p.s]]
      else if repl(p.s, p.e, p.caps).Some? then repl(p.s, p.e, p.caps).value
      else src[p.s..p.e]
  {
  }

  /** No match among the pieces is replaced. */
  ghost predicate AllKept(pieces: seq<Piece>, repl: Replacement) {
    forall i :: 0 <= i < |pieces| && pieces[i].Replace? ==> repl(pieces[i].s, pieces[i].e, pieces[i].caps) == None
  }

  lemma {:induction false} TilesLast(pieces: seq<Piece>, s: nat, end: nat)
    requires Tiles(pieces, s, end) && pieces != []
    ensures
      var p := pieces[|pieces| - 1];
      Tiles(pieces[..|pieces| - 1], s, StartOf(p)) && StartOf(p) <= EndOf(p) == end
    decreases |pieces|
  {
    if |pieces| > 1 {
      TilesLast(pieces[1..], EndOf(pieces[0]), end);
      assert pieces[1..][|pieces| - 2] == pieces[|pieces| - 1];
      assert pieces[1..][..|pieces| - 2] == pieces[..|pieces| - 1][1..];
    }
  }

  /** Pieces kept as they are give the text they cover. */
  lemma {:induction false} RenderKept(src: seq<byte>, pieces: seq<Piece>, s: nat, end: nat, repl: Replacement)
    requires Tiles(pieces, s, end) && end <= |src| && AllKept(pieces, repl)
    ensures s <= end && Render(src, pieces, repl) == src[s..end]
    decreases |pieces|
  {
    if pieces != [] {
      var p, front := pieces[|pieces| - 1], pieces[..|pieces| - 1];
      TilesLast(pieces, s, end);
      hide Tiles;
      RenderKept(src, front, s, StartOf(p), repl);
      assert p.Replace? ==> repl(p.s, p.e, p.caps) == None;
      assert PieceText(src, p, repl) == src[StartOf(p)..end];
      assert src[s..StartOf(p)] + src[StartOf(p)..end] == src[s..end];
    }
  }

  /** A result, with the number of matches replaced. */
  datatype Result = Replaced(text: seq<byte>, n: nat) | ReplaceError(error: Error)

  /** A call of gsub: its subject, its pattern without an anchor, and its limit,
      if any. */
  datatype Job = Job(src: seq<byte>, pat: seq<byte>, anchor: bool, repl: Replacement, max: Option<nat>)
  {
    function PlanAt(s: nat, last: int, left: Option<nat>): Plan
      requires s <= |src|
    {
      PlanFrom(src, pat, anchor, s, last, left)
    }

    function Whole(): Plan {
      PlanFrom(src, pat, anchor, 0, -1, max)
    }

    /** An error is the plan's, or that a long pattern is too complex. */
    ghost predicate Explains(error: Error) {
      Whole().error == Some(error) || (error == TooComplex && |pat| >= 200)
    }

    /** The text, the count of matches and whether any is replaced, of pieces. */
    ghost predicate Described(pieces: seq<Piece>, b: seq<byte>, n: nat, changed: bool) {
      b == Render(src, pieces, repl) && n == Matches(pieces) && changed == !AllKept(pieces, repl)
    }

    function Left(n: nat): Option<nat> {
      if max.None? then None else if n <= max.value then Some(max.value - n) else Some(0)
    }

    /** The whole plan is the pieces so far and then the plan from s, if not
        stopped. */
    ghost predicate Progress(pieces: seq<Piece>, s: nat, last: int, stopped: bool, b: seq<byte>, n: nat, changed: bool) {
      && s <= |src| && Described(pieces, b, n, changed)
      && Ahead(Whole(), pieces, if stopped then Plan([], s, None) else PlanAt(s, last, Left(n)))
    }

    /** What is next at a place is what the plan says. */
    ghost predicate Follows(next: Next, s: nat, last: int, left: Option<nat>)
      requires s <= |src|
    {
      match next
      case Bad(error) => PlanAt(s, last, left).error == Some(error) || (error == TooComplex && |pat| >= 200)
      case Over => PlanAt(s, last, left) == Plan([], s, None)
      case Add(piece) =>
        && StartOf(piece) == s && s <= EndOf(piece) <= |src| && (EndOf(piece) == s ==> piece.Replace? && last != s)
        && PlanAt(s, last, left) ==
           if anchor then Plan([piece], EndOf(piece), None)
           else Prepend(piece, PlanAt(EndOf(piece), LastEnd(piece, last), if piece.Replace? then Less(left) else left))
    }
  }

  /** Where the last match ended, after a piece. */
  function LastEnd(piece: Piece, last: int): int {
    if piece.Replace? then piece.e else last
  }

  /** What gsub does at a place: a piece to add, an end, or an error. */
  datatype Next = Add(piece: Piece) | Over | Bad(error: Error)

  /** The plan is the pieces so far and then the rest. */
  ghost predicate Ahead(plan: Plan, pieces: seq<Piece>, rest: Plan) {
    plan.pieces == pieces + rest.pieces && plan.end == rest.end && plan.error == rest.error
  }

  lemma Starts(job: Job)
    ensures job.Progress([], 0, -1, false, [], 0, false)
  {
  }

  /** A piece adds its text and its match, and takes the plan one piece on. */
  lemma Advances(job: Job, pieces: seq<Piece>, s: nat, last: int, b: seq<byte>, n: nat, changed: bool, piece: Piece)
    requires job.Progress(pieces, s, last, false, b, n, changed) && job.Follows(Add(piece), s, last, job.Left(n))
    requires job.Left(n) != Some(0)
    ensures job.Progress(pieces + [piece], EndOf(piece), LastEnd(piece, last), job.anchor, b + PieceText(job.src, piece, job.repl),
                         n + (if piece.Replace? then 1 else 0),
                         changed || (piece.Replace? && job.repl(piece.s, piece.e, piece.caps).Some?))
  {
    hide PlanFrom, PieceText;
    DescribesOneMore(job, pieces, b, n, changed, piece);
  }

  lemma DescribesOneMore(job: Job, pieces: seq<Piece>, b: seq<byte>, n: nat, changed: bool, piece: Piece)
    requires job.Described(pieces, b, n, changed)
    ensures job.Described(pieces + [piece], b + PieceText(job.src, piece, job.repl), n + (if piece.Replace? then 1 else 0),
                          changed || (piece.Replace? && job.repl(piece.s, piece.e, piece.caps).Some?))
  {
    hide PieceText, AllKept, Matches;
    assert (pieces + [piece])[..|pieces|] == pieces;
    MatchesAppend(pieces, piece);
    KeptAppend(pieces, piece, job.repl);
  }

  lemma KeptAppend(pieces: seq<Piece>, piece: Piece, repl: Replacement)
    ensures AllKept(pieces + [piece], repl) <==>
      AllKept(pieces, repl) && (piece.Replace? ==> repl(piece.s, piece.e, piece.caps) == None)
  {
    assert (pieces + [piece])[|pieces|] == piece;
    assert forall i :: 0 <= i < |pieces| ==> pieces[i] == (pieces + [piece])[i];
  }

  /** Where nothing is left of the plan, the pieces are all of it. */
  lemma Finishes(job: Job, pieces: seq<Piece>, s: nat, last: int, stopped: bool, b: seq<byte>, n: nat, changed: bool)
    requires job.Progress(pieces, s, last, stopped, b, n, changed)
    requires !stopped ==> job.PlanAt(s, last, job.Left(n)) == Plan([], s, None)
    ensures job.Whole().error.None? && job.Described(job.Whole().pieces, b, n, changed) && s == job.Whole().end
  {
    hide PlanFrom;
    assert pieces + [] == pieces;
  }

  lemma {:induction false} MatchesAppend(pieces: seq<Piece>, piece: Piece)
    ensures Matches(pieces + [piece]) == Matches(pieces) + if piece.Replace? then 1 else 0
  {
    if pieces == [] {
      assert pieces + [piece] == [piece];
    } else {
      assert (pieces + [piece])[1..] == pieces[1..] + [piece];
      MatchesAppend(pieces[1..], piece);
    }
  }

  /** What is next at a place. */
  method NextPiece(ms: MatchState, s: nat, last: int, ghost job: Job, ghost left: Option<nat>) returns (next: Next)
    requires ms.Valid() && ms.src == job.src && ms.pat == job.pat && s <= |ms.src| && left != Some(0)
    modifies ms, ms.capture
    ensures ms.Valid() && job.Follows(next, s, last, left)
  {
    hide Ways;
    ms.Reset();
    var m := ms.Match(s, 0);
    if m.Failed? {
      return Bad(m.error);
    }
    if m.End? && m.e != last {
      return Add(Replace(s, m.e, ms.capture[..ms.level]));
    } else if s < |ms.src| {
      return Add(Copy(s));
    }
    return Over;
  }

  /** The pieces' text, where they stop, how many matches there were, whether
      any was replaced, and the error that stopped it all. */
  method ReplaceAll(job: Job) returns (b: seq<byte>, s: nat, n: nat, changed: bool, error: Option<Error>)
    ensures if error.Some? then job.Explains(error.value)
            else job.Whole().error.None? && job.Described(job.Whole().pieces, b, n, changed) && s == job.Whole().end
  {
    hide PlanFrom, Ways, PieceText, Job.Described;
    var ms := new MatchState(job.src, job.pat);
    b, s, n, changed, error := [], 0, 0, false, None;
    var last: int, stopped := -1, false;
    ghost var pieces: seq<Piece> := [];
    Starts(job);
    while !stopped && (job.max.None? || n < job.max.value)
      invariant ms.Valid() && ms.src == job.src && ms.pat == job.pat && fresh(ms) && fresh(ms.capture)
      invariant job.Progress(pieces, s, last, stopped, b, n, changed) && error == None
      decreases if stopped then 0 else 1, |job.src| - s, if last == s then 0 else 1
    {
      var next := NextPiece(ms, s, last, job, job.Left(n));
      if next.Bad? {
        error := Some(next.error);
        return;
      }
      if next.Over? {
        Finishes(job, pieces, s, last, false, b, n, changed);
        return;
      }
      var piece := next.piece;
      Advances(job, pieces, s, last, b, n, changed, piece);
      b := b + PieceText(job.src, piece, job.repl);
      if piece.Replace? {
        changed := changed || job.repl(piece.s, piece.e, piece.caps).Some?;
        n := n + 1;
      }
      pieces, s, last, stopped := pieces + [piece], EndOf(piece), LastEnd(piece, last), job.anchor;
    }
    Exhausted(job, s, last, n);
    Finishes(job, pieces, s, last, stopped, b, n, changed);
  }

  lemma Exhausted(job: Job, s: nat, last: int, n: nat)
    requires s <= |job.src|
    ensures job.max.Some? && n >= job.max.value ==> job.PlanAt(s, last, job.Left(n)) == Plan([], s, None)
  {
  }

  /** Replaces at most so many matches: the result is the pieces' text and the
      rest of the subject, and the subject itself if all matches are kept. */
  method Gsub(src: seq<byte>, p: seq<byte>, repl: Replacement, max: Option<nat>) returns (r: Result)
    ensures
      var anchor := |p| > 0 && Is(p[0], '^');
      var job := Job(src, if anchor then p[1..] else p, anchor, repl, max);
      match r
      case Replaced(text, n) =>
        && job.Whole().error.None? && job.Whole().end <= |src| && n == Matches(job.Whole().pieces)
        && text == Render(src, job.Whole().pieces, repl) + src[job.Whole().end..]
      case ReplaceError(error) => job.Explains(error)
  {
    hide PlanFrom, Tiles, Matches, Render, AllKept;
    var anchor := |p| > 0 && Is(p[0], '^');
    var job := Job(src, if anchor then p[1..] else p, anchor, repl, max);
    var b, s, n, changed, error := ReplaceAll(job);
    if error.Some? {
      return ReplaceError(error.value);
    }
    PlanTiles(src, job.pat, anchor, 0, -1, max);
    if changed {
      b := b + src[s..];
    } else {
      RenderKept(src, job.Whole().pieces, 0, s, repl);
      assert src[0..s] + src[s..] == src;
      b := src;
    }
    return Replaced(b, n);
  }
}
