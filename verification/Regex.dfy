// A backtracking matcher in the order Python's `re` tries alternatives, over ASCII, ignoring case.
module Regex {
  import opened Wrappers

  datatype Kind = DigitKind | SpaceKind

  datatype Re =
    | Empty
    | Lit(c: char)               // a lower-case letter or a mark, matched without case
    | One(kind: Kind)
    | Star(kind: Kind)         // greedy
    | Cat(first: Re, second: Re)
    | Alt(left: Re, right: Re)   // left is tried first
    | Group(n: nat, body: Re)    // capturing
    | WordBoundary

  function Lower(c: char): char {
    if 'A' <= c <= 'Z' then ((c as int - 'A' as int) + 'a' as int) as char else c
  }

  predicate IsWord(c: char) { 'a' <= c <= 'z' || 'A' <= c <= 'Z' || '0' <= c <= '9' || c == '_' }

  predicate IsSpace(c: char) { c == ' ' || '\t' <= c <= '\r' || '\U{1C}' <= c <= '\U{1F}' }

  predicate OfKind(kind: Kind, c: char) {
    match kind
    case DigitKind => '0' <= c <= '9'
    case SpaceKind => IsSpace(c)
  }

  // The characters by their code points: case folding, `\s`, `\d` and `\w`.
  lemma CharactersExactly(c: char)
    ensures var code := c as int;
            && Lower(c) as int == (if 65 <= code < 91 then code + 32 else code)
            && (IsSpace(c) <==> code in {9, 10, 11, 12, 13, 28, 29, 30, 31, 32})
            && (OfKind(DigitKind, c) <==> 48 <= code < 58) && (OfKind(SpaceKind, c) <==> IsSpace(c))
            && (IsWord(c) <==> 48 <= code < 58 || 65 <= code < 91 || 97 <= code < 123 || code == 95)
  {
  }

  predicate AtBoundary(t: string, i: nat)
    requires i <= |t|
  {
    (i > 0 && IsWord(t[i - 1])) != (i < |t| && IsWord(t[i]))
  }

  // `x?`, greedy
  function Opt(x: Re): Re { Alt(x, Empty) }
  // `\s+`
  function Spaces(): Re { Cat(One(SpaceKind), Star(SpaceKind)) }
  // `\d{n}`
  function Digits(n: nat): Re { if n == 0 then Empty else Cat(One(DigitKind), Digits(n - 1)) }
  // The letters of a word, in order.
  function Word(w: string): Re { if w == "" then Empty else Cat(Lit(w[0]), Word(w[1..])) }
  // `w1|w2|…`
  function AnyOf(words: seq<string>): Re
    requires words != []
  {
    if |words| == 1 then Word(words[0]) else Alt(Word(words[0]), AnyOf(words[1..]))
  }

  // ---- the matcher ----

  type Groups = map<nat, string>
  datatype Found = Found(end: nat, groups: Groups)

  // What is still to be matched; Close ends the group that began at `start`.
  datatype Item = Want(re: Re) | Close(n: nat, start: nat)
  datatype Stack = Done | Push(top: Item, rest: Stack)

  function ReSize(re: Re): nat {
    match re
    case Cat(a, b) => 1 + ReSize(a) + ReSize(b)
    case Alt(a, b) => 1 + ReSize(a) + ReSize(b)
    case Group(_, body) => 2 + ReSize(body)
    case _ => 1
  }

  function StackSize(stack: Stack): nat {
    match stack
    case Done => 0
    case Push(Want(re), rest) => ReSize(re) + StackSize(rest)
    case Push(Close(_, _), rest) => 1 + StackSize(rest)
  }

  function Slice(t: string, i: nat, j: nat): string { if i <= j <= |t| then t[i..j] else "" }

  function Run(stack: Stack, t: string, i: nat, groups: Groups): Option<Found>
    requires i <= |t|
    decreases |t| - i, StackSize(stack)
  {
    match stack
    case Done => Some(Found(i, groups))
    case Push(Close(n, start), rest) => Run(rest, t, i, groups[n := Slice(t, start, i)])
    case Push(Want(re), rest) =>
      match re
      case Empty => Run(rest, t, i, groups)
      case Lit(c) => if i < |t| && Lower(t[i]) == c then Run(rest, t, i + 1, groups) else None
      case One(kind) => if i < |t| && OfKind(kind, t[i]) then Run(rest, t, i + 1, groups) else None
      case Star(kind) =>
        var longer := if i < |t| && OfKind(kind, t[i]) then Run(stack, t, i + 1, groups) else None;
        if longer.Some? then longer else Run(rest, t, i, groups)
      case Cat(a, b) =>
        assert StackSize(Push(Want(b), rest)) == ReSize(b) + StackSize(rest);
        Run(Push(Want(a), Push(Want(b), rest)), t, i, groups)
      case Alt(a, b) =>
        var first := Run(Push(Want(a), rest), t, i, groups);
        if first.Some? then first else Run(Push(Want(b), rest), t, i, groups)
      case Group(n, body) =>
        assert StackSize(Push(Close(n, i), rest)) == 1 + StackSize(rest);
        Run(Push(Want(body), Push(Close(n, i), rest)), t, i, groups)
      case WordBoundary => if AtBoundary(t, i) then Run(rest, t, i, groups) else None
  }

  function MatchAt(re: Re, t: string, i: nat): Option<Found>
    requires i <= |t|
  {
    Run(Push(Want(re), Done), t, i, NoGroups())
  }

  // `re.search`: the leftmost start with a match.
  function SearchFrom(re: Re, t: string, i: nat): Option<(nat, Found)>
    requires i <= |t|
    decreases |t| - i
  {
    if MatchAt(re, t, i).Some? then Some((i, MatchAt(re, t, i).value))
    else if i == |t| then None
    else SearchFrom(re, t, i + 1)
  }

  function Search(re: Re, t: string): Option<(nat, Found)> { SearchFrom(re, t, 0) }

  lemma {:induction false} SearchIsLeftmost(re: Re, t: string, i: nat)
    requires i <= |t|
    ensures SearchFrom(re, t, i).None? <==> forall j :: i <= j <= |t| ==> MatchAt(re, t, j).None?
    ensures SearchFrom(re, t, i).Some? ==>
              var (start, found) := SearchFrom(re, t, i).value;
              && i <= start <= |t| && MatchAt(re, t, start) == Some(found)
              && forall j :: i <= j < start ==> MatchAt(re, t, j).None?
    decreases |t| - i
  {
    if MatchAt(re, t, i).None? && i < |t| {
      SearchIsLeftmost(re, t, i + 1);
    }
  }

  // ---- what an expression describes, without any order of trying ----

  ghost predicate Describes(re: Re, t: string, i: nat, j: nat, before: Groups, after: Groups)
    decreases re
  {
    && i <= j <= |t|
    && match re
       case Empty => i == j && after == before
       case Lit(c) => j == i + 1 && Lower(t[i]) == c && after == before
       case One(kind) => j == i + 1 && OfKind(kind, t[i]) && after == before
       case Star(kind) => (forall k :: i <= k < j ==> OfKind(kind, t[k])) && after == before
       case Cat(a, b) =>
         exists m: nat, mid: Groups :: Describes(a, t, i, m, before, mid) && Describes(b, t, m, j, mid, after)
       case Alt(a, b) => Describes(a, t, i, j, before, after) || Describes(b, t, i, j, before, after)
       case Group(n, body) => exists mid: Groups :: Describes(body, t, i, j, before, mid) && after == mid[n := t[i..j]]
       case WordBoundary => i == j && after == before && AtBoundary(t, i)
  }

  // Whatever the matcher finds is described: it splits at some point into the expression and the rest.
  lemma {:induction false} RunIsSound(re: Re, rest: Stack, t: string, i: nat, groups: Groups)
    returns (j: nat, after: Groups)
    requires i <= |t| && Run(Push(Want(re), rest), t, i, groups).Some?
    ensures i <= j <= |t| && Describes(re, t, i, j, groups, after)
    ensures Run(rest, t, j, after) == Run(Push(Want(re), rest), t, i, groups)
    decreases |t| - i, re
  {
    j, after := i, groups;
    match re
    case Empty =>
    case Lit(c) => j := i + 1;
    case One(kind) => j := i + 1;
    case Star(kind) =>
      if i < |t| && OfKind(kind, t[i]) && Run(Push(Want(re), rest), t, i + 1, groups).Some? {
        j, after := RunIsSound(re, rest, t, i + 1, groups);
      }
    case Cat(a, b) =>
      var m, mid := RunIsSound(a, Push(Want(b), rest), t, i, groups);
      j, after := RunIsSound(b, rest, t, m, mid);
    case Alt(a, b) =>
      if Run(Push(Want(a), rest), t, i, groups).Some? {
        j, after := RunIsSound(a, rest, t, i, groups);
      } else {
        j, after := RunIsSound(b, rest, t, i, groups);
      }
    case Group(n, body) =>
      var mid: Groups;
      j, mid := RunIsSound(body, Push(Close(n, i), rest), t, i, groups);
      after := mid[n := t[i..j]];
    case WordBoundary =>
  }

  // Backtracking misses nothing: if the text can be split so that the rest matches, a match is found.
  lemma {:induction false} RunIsComplete(re: Re, rest: Stack, t: string, i: nat, groups: Groups, j: nat, after: Groups)
    requires i <= j <= |t| && Describes(re, t, i, j, groups, after)
    requires Run(rest, t, j, after).Some?
    ensures Run(Push(Want(re), rest), t, i, groups).Some?
    decreases |t| - i, re
  {
    match re
    case Empty =>
    case Lit(c) =>
    case One(kind) =>
    case Star(kind) =>
      if i < j {
        RunIsComplete(re, rest, t, i + 1, groups, j, after);
      }
    case Cat(a, b) =>
      var m: nat, mid: Groups :| Describes(a, t, i, m, groups, mid) && Describes(b, t, m, j, mid, after);
      RunIsComplete(b, rest, t, m, mid, j, after);
      RunIsComplete(a, Push(Want(b), rest), t, i, groups, m, mid);
    case Alt(a, b) =>
      if Describes(a, t, i, j, groups, after) {
        RunIsComplete(a, rest, t, i, groups, j, after);
      } else {
        RunIsComplete(b, rest, t, i, groups, j, after);
      }
    case Group(n, body) =>
      var mid: Groups :| Describes(body, t, i, j, groups, mid) && after == mid[n := t[i..j]];
      RunIsComplete(body, Push(Close(n, i), rest), t, i, groups, j, mid);
    case WordBoundary =>
  }

  // A match starts at i exactly when some stretch from i is described, and the one reported is.
  lemma MatchIsDescription(re: Re, t: string, i: nat)
    requires i <= |t|
    ensures MatchAt(re, t, i).Some? <==> SomeDescription(re, t, i)
    ensures MatchAt(re, t, i).Some? ==>
              Describes(re, t, i, MatchAt(re, t, i).value.end, NoGroups(), MatchAt(re, t, i).value.groups)
  {
    if MatchAt(re, t, i).Some? {
      var j, after := RunIsSound(re, Done, t, i, NoGroups());
      assert Run(Done, t, j, after) == Some(Found(j, after));
    }
    if SomeDescription(re, t, i) {
      var j: nat, after: Groups :| Describes(re, t, i, j, NoGroups(), after);
      RunIsComplete(re, Done, t, i, NoGroups(), j, after);
    }
  }

  function NoGroups(): Groups { map[] }

  ghost predicate SomeDescription(re: Re, t: string, i: nat) {
    exists j: nat, after: Groups :: Describes(re, t, i, j, NoGroups(), after)
  }
}
