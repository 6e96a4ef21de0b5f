// Text without a stamp, followed by something that begins like one, still holds no stamp before it.
module PageTimeSearch {
  import opened Regex
  import opened RegexSteps
  import opened RegexFacts
  import opened PageTime

  // ---- the pieces of a described stamp ----

  ghost predicate Cut(words: seq<string>, t: string, i: nat, m: nat, n: nat, y: nat, g1: Groups, g2: Groups, g3: Groups)
    requires words != []
  {
    && i <= m <= n <= y <= |t|
    && DescribesAll(LeadParts(), t, i, m, NoGroups(), g1)
    && Describes(Group(2, AnyOf(words)), t, m, n, g1, g2)
    && DescribesAll(MarkParts(), t, n, y, g2, g3)
  }

  lemma StampCuts(words: seq<string>, t: string, i: nat, j: nat, after: Groups)
    returns (m: nat, n: nat, y: nat, g1: Groups, g2: Groups, g3: Groups)
    requires words != [] && i <= |t| && Describes(StampWith(words), t, i, j, NoGroups(), after)
    ensures Cut(words, t, i, m, n, y, g1, g2, g3) && y <= j && Describes(CommaTail(), t, y, j, g3, after)
  {
    var marks := Spine(MarkParts(), CommaTail());
    var month := [Group(2, AnyOf(words))];
    StampIsSpine(words);
    m, g1 := SpineSplits(LeadParts(), Spine(month, marks), t, i, j, NoGroups(), after);
    n, g2 := SpineSplits(month, marks, t, m, j, g1, after);
    OneDescribed(Group(2, AnyOf(words)), t, m, n, g1, g2);
    y, g3 := SpineSplits(MarkParts(), CommaTail(), t, n, j, g2, after);
  }

  // Any described ending of the cut makes a described stamp.
  lemma CutJoins(words: seq<string>, t: string, i: nat, m: nat, n: nat, y: nat, g1: Groups, g2: Groups, g3: Groups,
                 j: nat, after: Groups)
    requires words != [] && Cut(words, t, i, m, n, y, g1, g2, g3) && Describes(CommaTail(), t, y, j, g3, after)
    ensures Describes(StampWith(words), t, i, j, NoGroups(), after)
  {
    var marks := Spine(MarkParts(), CommaTail());
    var month := [Group(2, AnyOf(words))];
    SpineJoins(MarkParts(), CommaTail(), t, n, y, j, g2, g3, after);
    assert month[1..] == [] && DescribesAll([], t, n, n, g2, g2);
    assert DescribesAll(month, t, m, n, g1, g2);
    SpineJoins(month, marks, t, m, n, j, g1, g2, after);
    SpineJoins(LeadParts(), Spine(month, marks), t, i, m, j, NoGroups(), g1, after);
    StampIsSpine(words);
  }

  // ---- where a stamp can hold the letter c ----

  function LeadRest(): seq<Re> {
    [Spaces()] + ([Word("as")] + ([Spaces()] + ([Opt(Cat(Word("of"), Spaces()))]
      + ([Group(1, DayDigits())] + ([Spaces()] + [])))))
  }

  lemma LeadRestTakesNoC()
    ensures forall k :: 0 <= k < |LeadRest()| ==> !Takes(LeadRest()[k], 'c')
  {
    var as_, of := "as", "of";
    assert 'c' !in as_ && 'c' !in of;
    WordTakes(as_, 'c');
    WordTakes(of, 'c');
  }

  // In the words before the month only the first letter is a c.
  lemma LeadHoldsNoC(t: string, i: nat, m: nat, after: Groups)
    requires i <= |t| && DescribesAll(LeadParts(), t, i, m, NoGroups(), after)
    ensures Free(t, i + 1, m, 'c')
  {
    assert LeadParts() == [Word("current")] + LeadRest();
    var a, mid := AllSplits([Word("current")], LeadRest(), t, i, m, NoGroups(), after);
    OneDescribed(Word("current"), t, i, a, NoGroups(), mid);
    WordDescribed("current", t, i, a, NoGroups(), mid);
    LeadRestTakesNoC();
    NoneTaken(LeadRest(), 'c', t, a, m, mid, after);
    CurrentHoldsNoC(t, i);
  }

  lemma CurrentHoldsNoC(t: string, i: nat)
    requires StandsAt(t, i, "current")
    ensures Free(t, i + 1, i + 7, 'c')
  {
    var w := "current";
    assert forall x :: 1 <= x < 7 ==> w[x] != 'c';
    forall k | i + 1 <= k < i + 7 ensures Lower(t[k]) != 'c' {
      assert Lower(t[k]) == w[k - i];
    }
  }

  lemma MarksHoldNoC(t: string, n: nat, y: nat, before: Groups, after: Groups)
    requires DescribesAll(MarkParts(), t, n, y, before, after)
    ensures Free(t, n, y, 'c')
  {
    NoneTaken(MarkParts(), 'c', t, n, y, before, after);
  }

  // After the month comes a mark or a blank, and the year ends in a digit.
  lemma MarksAndYear(t: string, n: nat, y: nat, before: Groups, after: Groups)
    requires n <= |t| && DescribesAll(MarkParts(), t, n, y, before, after)
    ensures n < y <= |t| && (t[n] in {'.', ','} || IsSpace(t[n])) && '0' <= t[y - 1] <= '9'
    ensures Free(t, n, y, 'c')
  {
    MarksHoldNoC(t, n, y, before, after);
    var rest := [Spaces()] + ([Group(3, Digits(4))] + []);
    var a, ga := OptSplits('.', [Opt(Lit(','))] + rest, t, n, y, before, after);
    var b, gb := OptSplits(',', rest, t, a, y, ga, after);
    BlankAndYear(t, b, y, gb, after);
  }

  lemma OptSplits(c: char, rest: seq<Re>, t: string, n: nat, y: nat, before: Groups, after: Groups)
    returns (a: nat, ga: Groups)
    requires n <= |t| && DescribesAll([Opt(Lit(c))] + rest, t, n, y, before, after)
    ensures n <= a <= |t| && DescribesAll(rest, t, a, y, ga, after) && (a == n || Lower(t[n]) == c)
  {
    a, ga := AllSplits([Opt(Lit(c))], rest, t, n, y, before, after);
    OneDescribed(Opt(Lit(c)), t, n, a, before, ga);
    OptDescribed(Lit(c), t, n, a, before, ga);
  }

  lemma BlankAndYear(t: string, b: nat, y: nat, before: Groups, after: Groups)
    requires b <= |t| && DescribesAll([Spaces()] + ([Group(3, Digits(4))] + []), t, b, y, before, after)
    ensures b < y <= |t| && IsSpace(t[b]) && '0' <= t[y - 1] <= '9'
  {
    var year := [Group(3, Digits(4))] + [];
    var c, gc := AllSplits([Spaces()], year, t, b, y, before, after);
    OneDescribed(Spaces(), t, b, c, before, gc);
    SpacesDescribed(t, b, c, before, gc);
    assert year == [Group(3, Digits(4))];
    OneDescribed(Group(3, Digits(4)), t, c, y, gc, after);
    DigitGroupDescribed(3, 4, t, c, y, gc, after);
  }

  lemma SpacesDescribed(t: string, i: nat, j: nat, before: Groups, after: Groups)
    requires Describes(Spaces(), t, i, j, before, after)
    ensures i < j <= |t| && IsSpace(t[i])
  {
  }

  lemma TailTakesNoC()
    ensures !Takes(CommaTail(), 'c')
  {
  }

  ghost predicate NoCu(w: string) { forall x :: 0 <= x < |w| - 1 && w[x] == 'c' ==> w[x + 1] != 'u' }

  lemma NoPlaceForCu(t: string, i: nat, m: nat, n: nat, y: nat, j: nat, b: nat)
    requires i < b && b + 1 < |t| && Lower(t[b]) == 'c' && Lower(t[b + 1]) == 'u'
    requires m <= n < y <= |t| && (t[n] in {'.', ','} || IsSpace(t[n])) && (m <= b ==> n <= b || n == b + 1)
    requires Free(t, i + 1, m, 'c') && Free(t, n, y, 'c') && Free(t, y, j, 'c')
    ensures j <= b
  {
  }

  lemma MonthIsAWord(words: seq<string>, t: string, m: nat, n: nat, before: Groups, after: Groups, b: nat)
    requires words != [] && (forall k :: 0 <= k < |words| ==> NoCu(words[k]))
    requires b + 1 < |t| && Lower(t[b]) == 'c' && Lower(t[b + 1]) == 'u'
    requires Describes(Group(2, AnyOf(words)), t, m, n, before, after)
    ensures m <= b ==> n <= b || n == b + 1
  {
    var mid: Groups :| Describes(AnyOf(words), t, m, n, before, mid) && after == mid[2 := t[m..n]];
    var k := AnyOfDescribed(words, t, m, n, before, mid);
  }

  // ---- a stamp that ends at the seam has a shorter one ----

  function AtParts(): seq<Re> { [Word("at")] + ([Spaces()] + ([Group(4, Digits(2))] + ([Group(5, Digits(2))] + []))) }
  function AtEnd(): Re { Cat(Star(SpaceKind), Opt(Lit('l'))) }

  // The clock after "at" can stop at its last digit; beyond it lie blanks or the letter L.
  lemma AtShortens(t: string, s: nat, j: nat, before: Groups, after: Groups) returns (q: nat)
    requires s <= |t| && Describes(AtPart(), t, s, j, before, after)
    ensures 0 < q <= j && s <= q && '0' <= t[q - 1] <= '9' && Describes(AtPart(), t, s, q, before, after)
    ensures q == j || IsSpace(t[q]) || Lower(t[j - 1]) == 'l'
  {
    var mid: Groups;
    q, mid := SpineSplits(AtParts(), AtEnd(), t, s, j, before, after);
    AtPartsEndInDigits(t, s, q, before, mid);
    AtEndDescribed(t, q, j, mid, after);
    SpineJoins(AtParts(), AtEnd(), t, s, q, q, before, mid, after);
  }

  lemma AtPartsEndInDigits(t: string, s: nat, q: nat, before: Groups, after: Groups)
    requires s <= |t| && DescribesAll(AtParts(), t, s, q, before, after)
    ensures 0 < q <= |t| && '0' <= t[q - 1] <= '9'
  {
    var front := [Word("at")] + ([Spaces()] + [Group(4, Digits(2))]);
    assert AtParts() == front + [Group(5, Digits(2))];
    var a, ga := AllSplits(front, [Group(5, Digits(2))], t, s, q, before, after);
    OneDescribed(Group(5, Digits(2)), t, a, q, ga, after);
    DigitGroupDescribed(5, 2, t, a, q, ga, after);
  }

  lemma AtEndDescribed(t: string, q: nat, j: nat, before: Groups, after: Groups)
    requires Describes(AtEnd(), t, q, j, before, after)
    ensures after == before && Describes(AtEnd(), t, q, q, before, after)
    ensures q == j || IsSpace(t[q]) || Lower(t[j - 1]) == 'l'
  {
    var m: nat, mid: Groups :| Describes(Star(SpaceKind), t, q, m, before, mid)
                               && Describes(Opt(Lit('l')), t, m, j, mid, after);
    assert q < m ==> OfKind(SpaceKind, t[q]);
    assert Describes(Star(SpaceKind), t, q, q, before, before);
    assert Describes(Opt(Lit('l')), t, q, q, before, before);
  }

  lemma EndsInLit(a: Re, b: Re, x: Re, c: char, t: string, s: nat, j: nat, before: Groups, after: Groups)
    requires Describes(Cat(a, Cat(b, Cat(x, Lit(c)))), t, s, j, before, after)
    ensures 0 < j <= |t| && Lower(t[j - 1]) == c
  {
    var m1, g1 := CatDescribed(a, Cat(b, Cat(x, Lit(c))), t, s, j, before, after);
    var m2, g2 := CatDescribed(b, Cat(x, Lit(c)), t, m1, j, g1, after);
    var m3, g3 := CatDescribed(x, Lit(c), t, m2, j, g2, after);
  }

  lemma ShortenedEnds(t: string, q: nat, j: nat)
    requires 0 < q <= j < |t| && '0' <= t[q - 1] <= '9' && IsWord(t[j]) && AtBoundary(t, j)
    requires q == j || IsSpace(t[q]) || Lower(t[j - 1]) == 'l'
    ensures q < j && AtBoundary(t, q)
  {
  }

  // A clock that ends before a word character, at a word boundary, ends in blanks it can do without.
  lemma ClockShortens(t: string, s: nat, j: nat, before: Groups, after: Groups) returns (q: nat)
    requires Describes(ClockPart(), t, s, j, before, after)
    requires j < |t| && IsWord(t[j]) && AtBoundary(t, j)
    ensures s <= q < j && AtBoundary(t, q) && Describes(ClockPart(), t, s, q, before, after)
  {
    var m, mid := CatDescribed(Star(SpaceKind), Alt(AtPart(), LocalPart()), t, s, j, before, after);
    if Describes(LocalPart(), t, m, j, mid, after) {
      EndsInLit(Group(6, Digits(2)), Group(7, Digits(2)), Star(SpaceKind), 'l', t, m, j, mid, after);
    }
    q := AtShortens(t, m, j, mid, after);
    ShortenedEnds(t, q, j);
  }

  // The optional comma, the optional clock and the boundary after them.
  lemma TailSplits(clock: Re, t: string, y: nat, j: nat, before: Groups, after: Groups) returns (m: nat, mid: Groups)
    requires y <= |t| && Describes(Cat(Opt(Lit(',')), Cat(Opt(clock), WordBoundary)), t, y, j, before, after)
    ensures y <= m <= j <= |t| && AtBoundary(t, j) && Describes(Opt(Lit(',')), t, y, m, before, mid)
    ensures (m == y && mid == before) || (m == y + 1 && t[y] == ',' && mid == before)
    ensures Describes(clock, t, m, j, mid, after) || (m == j && after == mid)
  {
    m, mid := CatDescribed(Opt(Lit(',')), Cat(Opt(clock), WordBoundary), t, y, j, before, after);
    var e, ge := CatDescribed(Opt(clock), WordBoundary, t, m, j, mid, after);
    OptDescribed(Lit(','), t, y, m, before, mid);
    OptDescribed(clock, t, m, e, mid, ge);
  }

  lemma TailJoins(clock: Re, t: string, y: nat, m: nat, q: nat, before: Groups, mid: Groups, after: Groups)
    requires y <= |t| && Describes(Opt(Lit(',')), t, y, m, before, mid)
    requires m <= q <= |t| && AtBoundary(t, q)
    requires Describes(clock, t, m, q, mid, after) || (m == q && after == mid)
    ensures Describes(Cat(Opt(Lit(',')), Cat(Opt(clock), WordBoundary)), t, y, q, before, after)
  {
    OptDescribed(clock, t, m, q, mid, after);
    assert Describes(WordBoundary, t, q, q, after, after);
  }

  // An ending that stops before a word character can stop earlier: without its blanks or its comma.
  lemma TailShortens(t: string, y: nat, j: nat, before: Groups, after: Groups) returns (q: nat, ended: Groups)
    requires 0 < y <= |t| && '0' <= t[y - 1] <= '9' && j < |t| && IsWord(t[j])
    requires Describes(CommaTail(), t, y, j, before, after)
    ensures y <= q < j && Describes(CommaTail(), t, y, q, before, ended)
  {
    var m, mid := TailSplits(ClockPart(), t, y, j, before, after);
    if Describes(ClockPart(), t, m, j, mid, after) {
      q := ClockShortens(t, m, j, mid, after);
      ended := after;
      TailJoins(ClockPart(), t, y, m, q, before, mid, after);
    } else {
      q, ended := y, before;
      OptDescribed(Lit(','), t, y, y, before, before);
      TailJoins(ClockPart(), t, y, y, y, before, before, before);
    }
  }

  // ---- the seam ----

  // A stretch from i that ends before b.
  ghost predicate DescribesBefore(re: Re, t: string, i: nat, b: nat) {
    exists q: nat, ended: Groups :: i <= q < b && Describes(re, t, i, q, NoGroups(), ended)
  }

  lemma MatchedBefore(re: Re, t: string, before: string, i: nat)
    requires before <= t && i < |before| && DescribesBefore(re, t, i, |before|)
    ensures MatchAt(re, before, i).Some?
  {
    var q: nat, ended: Groups :| i <= q < |before| && Describes(re, t, i, q, NoGroups(), ended);
    DescribedLocally(re, t, before, i, q, NoGroups(), ended);
    MatchIsDescription(re, before, i);
  }

  // A described stamp that starts before b cannot take the first two letters of "current" there, and
  // if it ends right before them a shorter one is described.
  lemma StampInside(words: seq<string>, t: string, i: nat, j: nat, after: Groups, b: nat)
    returns (q: nat, ended: Groups)
    requires words != [] && (forall k :: 0 <= k < |words| ==> NoCu(words[k]))
    requires i < b && b + 1 < |t| && Lower(t[b]) == 'c' && Lower(t[b + 1]) == 'u'
    requires i <= j <= |t| && Describes(StampWith(words), t, i, j, NoGroups(), after)
    ensures i <= q < b && Describes(StampWith(words), t, i, q, NoGroups(), ended)
  {
    var m, n, y, g1, g2, g3 := StampCuts(words, t, i, j, after);
    LeadHoldsNoC(t, i, m, g1);
    MonthIsAWord(words, t, m, n, g1, g2, b);
    MarksAndYear(t, n, y, g2, g3);
    TailTakesNoC();
    NotTaken(CommaTail(), 'c', t, y, j, g3, after);
    NoPlaceForCu(t, i, m, n, y, j, b);
    q, ended := j, after;
    if j == b {
      q, ended := TailShortens(t, y, j, g3, after);
      CutJoins(words, t, i, m, n, y, g1, g2, g3, q, ended);
    }
  }

  lemma FoundStampEndsBefore(words: seq<string>, t: string, i: nat, b: nat)
    requires words != [] && (forall k :: 0 <= k < |words| ==> NoCu(words[k]))
    requires i < b && b + 1 < |t| && Lower(t[b]) == 'c' && Lower(t[b + 1]) == 'u'
    requires MatchAt(StampWith(words), t, i).Some?
    ensures DescribesBefore(StampWith(words), t, i, b)
  {
    var j, after := StampFound(words, t, i);
    var q, ended := StampInside(words, t, i, j, after, b);
  }

  // What stands at the seam begins with "cu", so a stamp found from inside the text before it lies
  // wholly inside that text.
  lemma SeamIsNotCrossed(words: seq<string>, t: string, before: string, i: nat)
    requires words != [] && (forall k :: 0 <= k < |words| ==> NoCu(words[k]))
    requires before <= t && i < |before| && |before| + 1 < |t|
    requires Lower(t[|before|]) == 'c' && Lower(t[|before| + 1]) == 'u'
    requires MatchAt(StampWith(words), t, i).Some?
    ensures MatchAt(StampWith(words), before, i).Some?
  {
    FoundStampEndsBefore(words, t, i, |before|);
    MatchedBefore(StampWith(words), t, before, i);
  }

  lemma StampFound(words: seq<string>, t: string, i: nat) returns (j: nat, after: Groups)
    requires words != [] && i <= |t| && MatchAt(StampWith(words), t, i).Some?
    ensures i <= j <= |t| && Describes(StampWith(words), t, i, j, NoGroups(), after)
  {
    MatchIsDescription(StampWith(words), t, i);
    j, after := MatchAt(StampWith(words), t, i).value.end, MatchAt(StampWith(words), t, i).value.groups;
  }

}
