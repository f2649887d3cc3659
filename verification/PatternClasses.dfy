/** Which bytes the character classes and sets of a pattern have, by their codes. */
module PatternClasses {
  import opened Wrappers
  import opened Pattern
  import opened PatternSearch

  /** The byte is in the class %letter. */
  predicate Has(letter: char, c: byte)
    requires letter < 256 as char
  {
    MatchClass(c, letter as int)
  }

  /** The small letters' classes, of all bytes. */
  lemma SmallLetters(c: byte)
    ensures Has('d', c) <==> 48 <= c <= 57
    ensures Has('l', c) <==> 97 <= c <= 122
    ensures Has('u', c) <==> 65 <= c <= 90
    ensures Has('s', c) <==> 9 <= c <= 13 || c == 32
    ensures Has('a', c) <==> Has('l', c) || Has('u', c)
    ensures Has('w', c) <==> Has('a', c) || Has('d', c)
    ensures Has('g', c) <==> 33 <= c <= 126
    ensures Has('p', c) <==> Has('g', c) && !Has('w', c)
    ensures Has('c', c) <==> c < 32 || c == 127
    ensures Has('x', c) <==> Has('d', c) || 65 <= c <= 70 || 97 <= c <= 102
    ensures Has('z', c) <==> c == 0
  {
  }

  const CLASS_LETTERS: seq<char> := "acdglpsuwxz"

  /** A capital's class is all that the small letter's is not. */
  lemma Capitals(c: byte, letter: char)
    requires letter in CLASS_LETTERS
    ensures MatchClass(c, letter as int - 32) <==> !MatchClass(c, letter as int)
  {
  }

  /** Any other byte after '%' stands for itself. */
  lemma OthersStand(c: byte, cl: byte)
    requires forall letter :: letter in CLASS_LETTERS ==> cl != letter as int && cl != letter as int - 32
    ensures MatchClass(c, cl) <==> c == cl
  {
    if LetterClass(c, ToLower(cl)).Some? {
      ClassLetter(c, cl);
    }
  }

  lemma ClassLetter(c: byte, cl: byte)
    requires LetterClass(c, ToLower(cl)).Some?
    ensures exists letter :: letter in CLASS_LETTERS && (cl == letter as int || cl == letter as int - 32)
  {
    var small := ToLower(cl) as char;
    var s := CLASS_LETTERS;
    assert s[0] == 'a' && s[1] == 'c' && s[2] == 'd' && s[3] == 'g' && s[4] == 'l' && s[5] == 'p' && s[6] == 's' && s[7] == 'u'
      && s[8] == 'w' && s[9] == 'x' && s[10] == 'z';
    assert small in CLASS_LETTERS;
  }

  // ---------- Sets ----------

  /** A set's text between its brackets. */
  function Written(items: seq<SetItem>): seq<byte> {
    if items == [] then []
    else
      (match items[0]
       case Class(cl) => ['%' as int, cl]
       case Range(lo, hi) => [lo, '-' as int, hi]
       case Just(b) => [b]) + Written(items[1..])
  }

  /** Items that mean what they say: no bare '%' begins one, and no '-' follows a bare
      byte. */
  ghost predicate Clear(items: seq<SetItem>) {
    forall i :: 0 <= i < |items| ==>
      match items[i]
      case Class(_) => true
      case Range(lo, _) => lo != '%' as int
      case Just(b) => b != '%' as int && (i + 1 < |items| ==> Written(items[i + 1..])[0] != '-' as int)
  }

  /** A set is read as the items it is written with. */
  lemma {:induction false} ItemsBack(pat: seq<byte>, p: nat, items: seq<SetItem>, ec: nat)
    requires Clear(items) && p + |Written(items)| == ec < |pat| && pat[p..ec] == Written(items)
    requires pat[ec] == ']' as int
    ensures SetItems(pat, p, ec) == items
    decreases |items|
  {
    if items != [] {
      var text := Written(items);
      var rest := Written(items[1..]);
      var n := |text| - |rest|;
      assert forall k :: 0 <= k < |text| ==> pat[p + k] == text[k];
      assert pat[p + n..ec] == text[n..] == rest;
      ClearRest(items);
      ItemsBack(pat, p + n, items[1..], ec);
      match items[0] {
        case Class(cl) =>
          assert text[0] == '%' as int && text[1] == cl;
        case Range(lo, hi) =>
          assert text[0] == lo && text[1] == '-' as int && text[2] == hi;
        case Just(b) =>
          assert text[0] == b;
          if |items| > 1 {
            assert items[0 + 1..] == items[1..];
            assert pat[p + 1] == text[1] == rest[0];
          }
      }
    }
  }

  lemma ClearRest(items: seq<SetItem>)
    requires items != [] && Clear(items)
    ensures Clear(items[1..])
  {
    var rest := items[1..];
    forall i | 0 <= i < |rest|
      ensures match rest[i]
        case Class(_) => true
        case Range(lo, _) => lo != '%' as int
        case Just(b) => b != '%' as int && (i + 1 < |rest| ==> Written(rest[i + 1..])[0] != '-' as int)
    {
      assert rest[i] == items[i + 1] && rest[i + 1..] == items[i + 2..];
    }
  }

  /** The item has the byte. */
  predicate Contains(item: SetItem, c: byte) {
    match item
    case Class(cl) => MatchClass(c, cl)
    case Range(lo, hi) => lo <= c && c <= hi
    case Just(b) => c == b
  }

  /** A set has exactly what its items have, a range the bytes from its one end to the
      other, and after '^' exactly all others. */
  lemma SetMeans(items: seq<SetItem>, c: byte)
    requires Clear(items) && (items != [] ==> Written(items)[0] != '^' as int)
    ensures
      var text := Written(items);
      var has := exists i :: 0 <= i < |items| && Contains(items[i], c);
      && InSet(['[' as int] + text + [']' as int], 0, |text| + 1, c) == has
      && InSet(['[' as int, '^' as int] + text + [']' as int], 0, |text| + 2, c) == !has
  {
    var text := Written(items);
    var set1, set2 := ['[' as int] + text + [']' as int], ['[' as int, '^' as int] + text + [']' as int];
    assert set1[1..|text| + 1] == text && set2[2..|text| + 2] == text;
    ItemsBack(set1, 1, items, |text| + 1);
    ItemsBack(set2, 2, items, |text| + 2);
    assert forall i :: 0 <= i < |items| ==> Contains(items[i], c) == ItemHas(items[i], c);
    assert At(set1, 1) == if items == [] then ']' as int else text[0];
  }

  // ---------- Limits ----------

  /** A pattern has at most 32 captures. */
  lemma CaptureLimit(src: seq<byte>, pat: seq<byte>, s: nat, p: nat, caps: seq<Capture>)
    requires p + 1 < |pat| && pat[p] == '(' as int && pat[p + 1] != ')' as int
    ensures |caps| >= 32 ==> Ways(src, pat, s, p, caps) == [Fault(TooManyCaptures)]
    ensures |caps| < 32 ==> Ways(src, pat, s, p, caps) == Ways(src, pat, s, p + 1, caps + [Capture(s, CAP_UNFINISHED)])
  {
  }

  // ---------- A search ----------

  const SUBJECT: seq<byte> := ['a' as int, 'b' as int, 'c' as int, ' ' as int, '1' as int, '2' as int, '3' as int]
  const DIGITS: seq<byte> := ['%' as int, 'd' as int, '+' as int]

  lemma SubjectDigits(s: nat)
    ensures Single(SUBJECT, DIGITS, s, 0, 2) <==> 4 <= s < 7
  {
    if s < 7 {
      SmallLetters(SUBJECT[s]);
    }
  }

  lemma WaysOfDigits(s: nat)
    requires s <= 7
    ensures
      var ways := Ways(SUBJECT, DIGITS, s, 0, []);
      if 4 <= s < 7 then ways != [] && ways[0] == Way(7, []) else ways == []
  {
    hide Ways, Single, Most, Repeats;
    WaysOfItem(SUBJECT, DIGITS, s, 0, 2, []);
    SubjectDigits(s);
    if 4 <= s < 7 {
      RunOfDigits(s + 1);
      MostOfDigits(s + 1);
    }
  }

  lemma {:induction false} RunOfDigits(s: nat)
    requires 4 <= s <= 7
    ensures Repeats(SUBJECT, DIGITS, s, 0, 2) == 7 - s
    decreases 7 - s
  {
    hide Single;
    SubjectDigits(s);
    if s < 7 {
      RunOfDigits(s + 1);
    }
  }

  lemma MostOfDigits(first: nat)
    requires first <= 7
    ensures Most(SUBJECT, DIGITS, first, 7, 3, []) != [] && Most(SUBJECT, DIGITS, first, 7, 3, [])[0] == Way(7, [])
  {
    assert Ways(SUBJECT, DIGITS, 7, 3, []) == [Way(7, [])];
  }

  /** The first number in "abc 123" is its last three bytes. */
  method DigitsFound() returns (r: Search)
    ensures r == Found(4, 7, [])
  {
    hide Ways;
    var anchor, pat;
    r, anchor, pat := Find(SUBJECT, DIGITS, 0);
    assert DIGITS[0] == '%' as int;
    assert pat == DIGITS && !anchor;
    LeftmostDigits(r);
  }

  lemma LeftmostDigits(r: Search)
    requires Leftmost(r, SUBJECT, DIGITS, 0, false)
    ensures r == Found(4, 7, [])
  {
    hide Ways;
    WaysOfDigits(4);
    match r {
      case Found(start, end, caps) =>
        WaysOfDigits(start);
        assert start <= 4;
      case NotFound =>
      case SearchError(error) =>
        assert |DIGITS| == 3;
        var s: nat :| s <= |SUBJECT| && NoneBefore(SUBJECT, DIGITS, 0, s)
          && Ways(SUBJECT, DIGITS, s, 0, []) != [] && Ways(SUBJECT, DIGITS, s, 0, [])[0] == Fault(error);
        WaysOfDigits(s);
    }
  }
}
