// How the matcher moves over plain pieces of text.
module RegexSteps {
  import opened Wrappers
  import opened Regex

  // The lower-case text w stands at position i, in any case.
  predicate StandsAt(t: string, i: nat, w: string) {
    i + |w| <= |t| && forall k :: i <= k < i + |w| ==> Lower(t[k]) == w[k - i]
  }

  predicate DigitsAt(t: string, i: nat, n: nat) {
    i + n <= |t| && forall k :: i <= k < i + n ==> '0' <= t[k] <= '9'
  }

  predicate SpaceAt(t: string, i: nat) { i < |t| && IsSpace(t[i]) }

  lemma {:induction false} WordStep(w: string, rest: Stack, t: string, i: nat, g: Groups)
    requires i <= |t|
    ensures Run(Push(Want(Word(w)), rest), t, i, g)
         == if StandsAt(t, i, w) then Run(rest, t, i + |w|, g) else None
  {
    if w != "" {
      if i < |t| && Lower(t[i]) == w[0] {
        WordStep(w[1..], rest, t, i + 1, g);
      }
    }
  }

  lemma {:induction false} DigitsStep(n: nat, rest: Stack, t: string, i: nat, g: Groups)
    requires i <= |t|
    ensures Run(Push(Want(Digits(n)), rest), t, i, g)
         == if DigitsAt(t, i, n) then Run(rest, t, i + n, g) else None
  {
    if n > 0 {
      if i < |t| && OfKind(DigitKind, t[i]) {
        DigitsStep(n - 1, rest, t, i + 1, g);
      }
    }
  }

  lemma DigitGroupStep(slot: nat, n: nat, rest: Stack, t: string, i: nat, g: Groups)
    requires i <= |t|
    ensures Run(Push(Want(Group(slot, Digits(n))), rest), t, i, g)
         == if DigitsAt(t, i, n) then Run(rest, t, i + n, g[slot := t[i..i + n]]) else None
  {
    DigitsStep(n, Push(Close(slot, i), rest), t, i, g);
  }

  // One space in single-spaced text is all that `\s+` can take.
  lemma SpacesStep(rest: Stack, t: string, i: nat, g: Groups)
    requires i <= |t| && (SpaceAt(t, i) ==> !SpaceAt(t, i + 1))
    ensures Run(Push(Want(Spaces()), rest), t, i, g) == if SpaceAt(t, i) then Run(rest, t, i + 1, g) else None
  {
    if SpaceAt(t, i) {
      StarStop(rest, t, i + 1, g);
    }
  }

  lemma StarStop(rest: Stack, t: string, i: nat, g: Groups)
    requires i <= |t| && !SpaceAt(t, i)
    ensures Run(Push(Want(Star(SpaceKind)), rest), t, i, g) == Run(rest, t, i, g)
  {
  }

  // `\s*` over one space, when what follows matches.
  lemma StarOne(rest: Stack, t: string, i: nat, g: Groups)
    requires SpaceAt(t, i) && !SpaceAt(t, i + 1)
    ensures Run(rest, t, i + 1, g).Some? ==>
              Run(Push(Want(Star(SpaceKind)), rest), t, i, g) == Run(rest, t, i + 1, g)
    ensures Run(rest, t, i + 1, g).None? ==>
              Run(Push(Want(Star(SpaceKind)), rest), t, i, g) == Run(rest, t, i, g)
  {
    StarStop(rest, t, i + 1, g);
  }

  // `c?`
  lemma OptStep(c: char, rest: Stack, t: string, i: nat, g: Groups)
    requires i <= |t|
    ensures i < |t| && Lower(t[i]) == c && Run(rest, t, i + 1, g).Some? ==>
              Run(Push(Want(Opt(Lit(c))), rest), t, i, g) == Run(rest, t, i + 1, g)
    ensures i >= |t| || Lower(t[i]) != c || Run(rest, t, i + 1, g).None? ==>
              Run(Push(Want(Opt(Lit(c))), rest), t, i, g) == Run(rest, t, i, g)
  {
    assert Run(Push(Want(Empty), rest), t, i, g) == Run(rest, t, i, g);
  }

  // ---- a choice of words, longest first ----

  ghost predicate LongestFirst(words: seq<string>) {
    forall i, j :: 0 <= i < j < |words| ==> |words[i]| >= |words[j]|
  }

  ghost predicate Letters(w: string) { w != "" && forall k :: 0 <= k < |w| ==> 'a' <= w[k] <= 'z' }

  // Of two words standing at the same place, the shorter is a proper beginning of the longer; when
  // no letter follows it, only words no longer than it stand there.
  lemma OnlyShorterStand(t: string, i: nat, w: string, other: string)
    requires StandsAt(t, i, w) && Letters(other)
    requires i + |w| == |t| || !('a' <= Lower(t[i + |w|]) <= 'z')
    requires StandsAt(t, i, other) && |other| >= |w|
    ensures other == w
  {
    if |other| > |w| {
      assert false;
    }
    forall k | 0 <= k < |w| ensures w[k] == other[k] {
      assert Lower(t[i + k]) == w[i + k - i] && Lower(t[i + k]) == other[i + k - i];
    }
  }

  lemma {:induction false} AnyOfStep(words: seq<string>, w: string, rest: Stack, t: string, i: nat, g: Groups)
    requires words != [] && LongestFirst(words) && (forall k :: 0 <= k < |words| ==> Letters(words[k]))
    requires w in words && StandsAt(t, i, w)
    requires i + |w| == |t| || !('a' <= Lower(t[i + |w|]) <= 'z')
    requires Run(rest, t, i + |w|, g).Some?
    ensures Run(Push(Want(AnyOf(words)), rest), t, i, g) == Run(rest, t, i + |w|, g)
    decreases |words|
  {
    WordStep(words[0], rest, t, i, g);
    if words[0] != w {
      FirstIsNoShorter(words, w);
      if StandsAt(t, i, words[0]) {
        OnlyShorterStand(t, i, w, words[0]);
      }
      AnyOfStep(words[1..], w, rest, t, i, g);
    }
  }

  lemma FirstIsNoShorter(words: seq<string>, w: string)
    requires LongestFirst(words) && w in words && words[0] != w
    ensures |words[0]| >= |w| && w in words[1..] && LongestFirst(words[1..])
  {
    var k :| 0 <= k < |words| && words[k] == w;
    assert words[1..][k - 1] == w && |words[0]| >= |words[k]|;
  }

  // ---- stacks without groups leave the captures alone ----

  predicate Plain(re: Re) {
    match re
    case Group(_, _) => false
    case Cat(a, b) => Plain(a) && Plain(b)
    case Alt(a, b) => Plain(a) && Plain(b)
    case _ => true
  }

  predicate PlainStack(stack: Stack) {
    match stack
    case Done => true
    case Push(Want(re), rest) => Plain(re) && PlainStack(rest)
    case Push(Close(_, _), _) => false
  }

  lemma {:induction false} PlainKeepsGroups(stack: Stack, t: string, i: nat, g: Groups)
    requires i <= |t| && PlainStack(stack)
    requires Run(stack, t, i, g).Some?
    ensures Run(stack, t, i, g).value.groups == g
    decreases |t| - i, StackSize(stack)
  {
    match stack
    case Done =>
    case Push(item, rest) =>
      match item.re
      case Empty => PlainKeepsGroups(rest, t, i, g);
      case Lit(c) => PlainKeepsGroups(rest, t, i + 1, g);
      case One(kind) => PlainKeepsGroups(rest, t, i + 1, g);
      case Star(kind) =>
        if i < |t| && OfKind(kind, t[i]) && Run(stack, t, i + 1, g).Some? {
          PlainKeepsGroups(stack, t, i + 1, g);
        } else {
          PlainKeepsGroups(rest, t, i, g);
        }
      case Cat(a, b) =>
        assert StackSize(Push(Want(b), rest)) == ReSize(b) + StackSize(rest);
        PlainKeepsGroups(Push(Want(a), Push(Want(b), rest)), t, i, g);
      case Alt(a, b) =>
        if Run(Push(Want(a), rest), t, i, g).Some? {
          PlainKeepsGroups(Push(Want(a), rest), t, i, g);
        } else {
          PlainKeepsGroups(Push(Want(b), rest), t, i, g);
        }
      case WordBoundary => PlainKeepsGroups(rest, t, i, g);
  }
}
