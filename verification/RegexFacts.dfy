// What follows from an expression describing a stretch of text, whatever the matcher tried.
module RegexFacts {
  import opened Regex
  import opened RegexSteps

  // ---- one step ----

  lemma CatDescribed(a: Re, b: Re, t: string, i: nat, j: nat, before: Groups, after: Groups)
    returns (m: nat, mid: Groups)
    requires Describes(Cat(a, b), t, i, j, before, after)
    ensures i <= m <= j <= |t| && Describes(a, t, i, m, before, mid) && Describes(b, t, m, j, mid, after)
  {
    m, mid :| Describes(a, t, i, m, before, mid) && Describes(b, t, m, j, mid, after);
  }

  lemma OptDescribed(x: Re, t: string, i: nat, j: nat, before: Groups, after: Groups)
    requires i <= |t|
    ensures Describes(Opt(x), t, i, j, before, after) <==>
            Describes(x, t, i, j, before, after) || (i == j && after == before)
  {
  }

  // ---- sequences of expressions ----

  function Spine(parts: seq<Re>, tail: Re): Re {
    if parts == [] then tail else Cat(parts[0], Spine(parts[1..], tail))
  }

  ghost predicate DescribesAll(parts: seq<Re>, t: string, i: nat, j: nat, before: Groups, after: Groups) {
    if parts == [] then i == j <= |t| && after == before
    else exists m: nat, mid: Groups ::
           Describes(parts[0], t, i, m, before, mid) && DescribesAll(parts[1..], t, m, j, mid, after)
  }

  lemma {:induction false} SpineSplits(parts: seq<Re>, tail: Re, t: string, i: nat, j: nat, before: Groups,
                                       after: Groups)
    returns (m: nat, mid: Groups)
    requires i <= |t| && Describes(Spine(parts, tail), t, i, j, before, after)
    ensures i <= m <= j <= |t| && DescribesAll(parts, t, i, m, before, mid) && Describes(tail, t, m, j, mid, after)
  {
    if parts == [] {
      m, mid := i, before;
    } else {
      var k: nat, gk: Groups :| Describes(parts[0], t, i, k, before, gk)
                                && Describes(Spine(parts[1..], tail), t, k, j, gk, after);
      m, mid := SpineSplits(parts[1..], tail, t, k, j, gk, after);
    }
  }

  lemma {:induction false} SpineJoins(parts: seq<Re>, tail: Re, t: string, i: nat, m: nat, j: nat, before: Groups,
                                      mid: Groups, after: Groups)
    requires DescribesAll(parts, t, i, m, before, mid) && Describes(tail, t, m, j, mid, after)
    ensures Describes(Spine(parts, tail), t, i, j, before, after)
  {
    if parts != [] {
      var k: nat, gk: Groups :| Describes(parts[0], t, i, k, before, gk)
                                && DescribesAll(parts[1..], t, k, m, gk, mid);
      SpineJoins(parts[1..], tail, t, k, m, j, gk, mid, after);
      assert Describes(Spine(parts[1..], tail), t, k, j, gk, after);
    }
  }

  lemma {:induction false} AllSplits(front: seq<Re>, rest: seq<Re>, t: string, i: nat, j: nat, before: Groups,
                                     after: Groups)
    returns (m: nat, mid: Groups)
    requires i <= |t| && DescribesAll(front + rest, t, i, j, before, after)
    ensures DescribesAll(front, t, i, m, before, mid) && DescribesAll(rest, t, m, j, mid, after)
    ensures i <= m <= |t|
  {
    if front == [] {
      assert front + rest == rest;
      m, mid := i, before;
    } else {
      assert (front + rest)[1..] == front[1..] + rest;
      var k: nat, gk: Groups :| Describes(front[0], t, i, k, before, gk)
                                && DescribesAll((front + rest)[1..], t, k, j, gk, after);
      m, mid := AllSplits(front[1..], rest, t, k, j, gk, after);
    }
  }

  lemma OneDescribed(re: Re, t: string, i: nat, j: nat, before: Groups, after: Groups)
    requires DescribesAll([re], t, i, j, before, after)
    ensures Describes(re, t, i, j, before, after)
  {
    assert [re][1..] == [];
  }

  lemma SpineStep(part: Re, rest: seq<Re>, tail: Re)
    ensures Spine([part] + rest, tail) == Cat(part, Spine(rest, tail))
  {
    assert ([part] + rest)[1..] == rest;
  }

  // ---- characters an expression cannot take ----

  // Could the expression take this letter, in either case?
  predicate Takes(re: Re, c: char) {
    match re
    case Lit(d) => d == c
    case Cat(a, b) => Takes(a, c) || Takes(b, c)
    case Alt(a, b) => Takes(a, c) || Takes(b, c)
    case Group(_, body) => Takes(body, c)
    case _ => false
  }

  ghost predicate Free(t: string, i: nat, j: nat, c: char) {
    forall k :: i <= k < j && k < |t| ==> Lower(t[k]) != c
  }

  lemma {:induction false} NotTaken(re: Re, c: char, t: string, i: nat, j: nat, before: Groups, after: Groups)
    requires 'a' <= c <= 'z' && !Takes(re, c) && Describes(re, t, i, j, before, after)
    ensures Free(t, i, j, c)
    decreases re
  {
    match re
    case Cat(a, b) =>
      var m: nat, mid: Groups :| Describes(a, t, i, m, before, mid) && Describes(b, t, m, j, mid, after);
      NotTaken(a, c, t, i, m, before, mid);
      NotTaken(b, c, t, m, j, mid, after);
    case Alt(a, b) =>
      if Describes(a, t, i, j, before, after) {
        NotTaken(a, c, t, i, j, before, after);
      } else {
        NotTaken(b, c, t, i, j, before, after);
      }
    case Group(n, body) =>
      var mid: Groups :| Describes(body, t, i, j, before, mid) && after == mid[n := t[i..j]];
      NotTaken(body, c, t, i, j, before, mid);
    case _ =>
  }

  lemma {:induction false} NoneTaken(parts: seq<Re>, c: char, t: string, i: nat, j: nat, before: Groups, after: Groups)
    requires 'a' <= c <= 'z' && (forall k :: 0 <= k < |parts| ==> !Takes(parts[k], c))
    requires DescribesAll(parts, t, i, j, before, after)
    ensures Free(t, i, j, c)
  {
    if parts != [] {
      var m: nat, mid: Groups :| Describes(parts[0], t, i, m, before, mid)
                                 && DescribesAll(parts[1..], t, m, j, mid, after);
      NotTaken(parts[0], c, t, i, m, before, mid);
      NoneTaken(parts[1..], c, t, m, j, mid, after);
    }
  }

  // ---- words and digits ----

  lemma {:induction false} WordDescribed(w: string, t: string, i: nat, j: nat, before: Groups, after: Groups)
    requires Describes(Word(w), t, i, j, before, after)
    ensures j == i + |w| && StandsAt(t, i, w)
  {
    if w != "" {
      var m: nat, mid: Groups :| Describes(Lit(w[0]), t, i, m, before, mid)
                                 && Describes(Word(w[1..]), t, m, j, mid, after);
      WordDescribed(w[1..], t, m, j, mid, after);
      forall k | i <= k < j ensures Lower(t[k]) == w[k - i] {
        assert k == i || w[k - i] == w[1..][k - i - 1];
      }
    }
  }

  lemma {:induction false} AnyOfDescribed(words: seq<string>, t: string, i: nat, j: nat, before: Groups, after: Groups)
    returns (k: nat)
    requires words != [] && Describes(AnyOf(words), t, i, j, before, after)
    ensures k < |words| && j == i + |words[k]| && StandsAt(t, i, words[k])
  {
    k := 0;
    if |words| > 1 && !Describes(Word(words[0]), t, i, j, before, after) {
      k := AnyOfDescribed(words[1..], t, i, j, before, after);
      k := k + 1;
    } else {
      WordDescribed(words[0], t, i, j, before, after);
    }
  }

  lemma {:induction false} DigitsDescribed(n: nat, t: string, i: nat, j: nat, before: Groups, after: Groups)
    requires Describes(Digits(n), t, i, j, before, after)
    ensures j == i + n && DigitsAt(t, i, n)
  {
    if n > 0 {
      var m: nat, mid: Groups :| Describes(One(DigitKind), t, i, m, before, mid)
                                 && Describes(Digits(n - 1), t, m, j, mid, after);
      DigitsDescribed(n - 1, t, m, j, mid, after);
    }
  }

  lemma DigitGroupDescribed(slot: nat, n: nat, t: string, i: nat, j: nat, before: Groups, after: Groups)
    requires Describes(Group(slot, Digits(n)), t, i, j, before, after)
    ensures j == i + n && DigitsAt(t, i, n)
  {
    var mid: Groups :| Describes(Digits(n), t, i, j, before, mid) && after == mid[slot := t[i..j]];
    DigitsDescribed(n, t, i, j, before, mid);
  }

  // ---- the text elsewhere does not matter ----

  // Two texts agree on a stretch and on what is a word boundary in it.
  ghost predicate AgreeOn(t: string, u: string, i: nat, j: nat) {
    && i <= j <= |t| && j <= |u|
    && (forall k :: i <= k < j ==> t[k] == u[k])
    && forall k :: i <= k <= j ==> (AtBoundary(t, k) <==> AtBoundary(u, k))
  }

  lemma {:induction false} DescribedLocally(re: Re, t: string, u: string, i: nat, j: nat, before: Groups, after: Groups)
    requires Describes(re, t, i, j, before, after) && AgreeOn(t, u, i, j)
    ensures Describes(re, u, i, j, before, after)
    decreases re
  {
    match re
    case Cat(a, b) =>
      var m: nat, mid: Groups :| Describes(a, t, i, m, before, mid) && Describes(b, t, m, j, mid, after);
      assert i <= m <= j;
      DescribedLocally(a, t, u, i, m, before, mid);
      DescribedLocally(b, t, u, m, j, mid, after);
    case Alt(a, b) =>
      if Describes(a, t, i, j, before, after) {
        DescribedLocally(a, t, u, i, j, before, after);
      } else {
        DescribedLocally(b, t, u, i, j, before, after);
      }
    case Group(n, body) =>
      var mid: Groups :| Describes(body, t, i, j, before, mid) && after == mid[n := t[i..j]];
      DescribedLocally(body, t, u, i, j, before, mid);
      assert t[i..j] == u[i..j];
    case _ =>
  }

  // ---- captures ----

  lemma {:induction false} CapturesGrow(re: Re, t: string, i: nat, j: nat, before: Groups, after: Groups)
    requires Describes(re, t, i, j, before, after)
    ensures before.Keys <= after.Keys
    decreases re
  {
    match re
    case Cat(a, b) =>
      var m: nat, mid: Groups :| Describes(a, t, i, m, before, mid) && Describes(b, t, m, j, mid, after);
      CapturesGrow(a, t, i, m, before, mid);
      CapturesGrow(b, t, m, j, mid, after);
    case Alt(a, b) =>
      if Describes(a, t, i, j, before, after) {
        CapturesGrow(a, t, i, j, before, after);
      } else {
        CapturesGrow(b, t, i, j, before, after);
      }
    case Group(n, body) =>
      var mid: Groups :| Describes(body, t, i, j, before, mid) && after == mid[n := t[i..j]];
      CapturesGrow(body, t, i, j, before, mid);
    case _ =>
  }

  // The group `second` occurs only after the group `first` has been captured.
  predicate Follows(re: Re, first: nat, second: nat) {
    match re
    case Cat(a, b) => (a.Group? && a.n == first) || (Follows(a, first, second) && Follows(b, first, second))
    case Alt(a, b) => Follows(a, first, second) && Follows(b, first, second)
    case Group(n, body) => n != second && Follows(body, first, second)
    case _ => true
  }

  lemma {:induction false} SecondNeedsFirst(re: Re, first: nat, second: nat, t: string, i: nat, j: nat,
                                            before: Groups, after: Groups)
    requires Follows(re, first, second) && Describes(re, t, i, j, before, after)
    requires second in before ==> first in before
    ensures second in after ==> first in after
    decreases re
  {
    match re
    case Cat(a, b) =>
      var m: nat, mid: Groups :| Describes(a, t, i, m, before, mid) && Describes(b, t, m, j, mid, after);
      CapturesGrow(b, t, m, j, mid, after);
      if a.Group? && a.n == first {
        assert first in mid;
      } else {
        SecondNeedsFirst(a, first, second, t, i, m, before, mid);
        SecondNeedsFirst(b, first, second, t, m, j, mid, after);
      }
    case Alt(a, b) =>
      if Describes(a, t, i, j, before, after) {
        SecondNeedsFirst(a, first, second, t, i, j, before, after);
      } else {
        SecondNeedsFirst(b, first, second, t, i, j, before, after);
      }
    case Group(n, body) =>
      var mid: Groups :| Describes(body, t, i, j, before, mid) && after == mid[n := t[i..j]];
      SecondNeedsFirst(body, first, second, t, i, j, before, mid);
    case _ =>
  }

  lemma {:induction false} PlainFollows(re: Re, first: nat, second: nat)
    requires Plain(re)
    ensures Follows(re, first, second)
  {
    match re
    case Cat(a, b) =>
      PlainFollows(a, first, second);
      PlainFollows(b, first, second);
    case Alt(a, b) =>
      PlainFollows(a, first, second);
      PlainFollows(b, first, second);
    case _ =>
  }

  lemma CatFollows(a: Re, b: Re, first: nat, second: nat)
    requires Follows(a, first, second) && Follows(b, first, second)
    ensures Follows(Cat(a, b), first, second)
  {
  }

  lemma {:induction false} WordIsPlain(w: string)
    ensures Plain(Word(w))
  {
    if w != "" {
      WordIsPlain(w[1..]);
    }
  }

  lemma {:induction false} AnyOfIsPlain(words: seq<string>)
    requires words != []
    ensures Plain(AnyOf(words))
  {
    WordIsPlain(words[0]);
    if |words| > 1 {
      AnyOfIsPlain(words[1..]);
    }
  }

  lemma {:induction false} WordTakes(w: string, c: char)
    requires c !in w
    ensures !Takes(Word(w), c)
  {
    if w != "" {
      WordTakes(w[1..], c);
    }
  }
}
