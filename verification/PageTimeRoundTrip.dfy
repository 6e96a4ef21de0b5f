// The stamp parser undoes the printing of a stamp: in any spelling of its words, and with any of the
// marks and blanks the expression leaves optional.
module PageTimeRoundTrip {
  import opened Wrappers
  import opened Calendar
  import D = Digits
  import opened Regex
  import opened RegexSteps
  import opened PageTime
  import opened PageTimeSearch
  import opened MonthTable

  // ---- the printed shapes ----

  datatype Clock =
    | NoClock                                                                // "11 SEP 2026"
    | AtClock(spaced: bool, at: string, hh: string, mm: string)              // "11 SEPTEMBER 2026 at 0350"
    | LocalClock(spaced: bool, hh: string, mm: string, gap: bool, l: char)   // "11 SEP 2026 0830L"

  // One printed stamp: its words in their own spelling, and which optional marks it carries.
  datatype Printed = Printed(
    current: string, asWord: string, of: Option<string>, day: string, month: string,
    dot: bool, comma: bool, year: string, yearComma: bool, clock: Clock)

  predicate TwoDigits(s: string) { |s| == 2 && D.AllDigits(s) }

  predicate ClockOk(c: Clock) {
    match c
    case NoClock => true
    case AtClock(_, at, hh, mm) => LowerText(at) == "at" && TwoDigits(hh) && TwoDigits(mm)
    case LocalClock(_, hh, mm, _, l) => TwoDigits(hh) && TwoDigits(mm) && Lower(l) == 'l'
  }

  ghost predicate WellPrinted(p: Printed, words: seq<string>) {
    && LowerText(p.current) == "current" && LowerText(p.asWord) == "as"
    && (p.of.Some? ==> LowerText(p.of.value) == "of")
    && 1 <= |p.day| <= 2 && D.AllDigits(p.day)
    && LowerText(p.month) in words
    && |p.year| == 4 && D.AllDigits(p.year)
    && ClockOk(p.clock) && (p.clock.NoClock? ==> !p.yearComma)
  }

  function Mark(present: bool, c: char): string { if present then [c] else "" }

  // A clock may follow the year with or without a blank, and its L the minutes.
  function ClockText(c: Clock): string {
    if c.NoClock? then "" else Mark(c.spaced, ' ') + ClockBody(c)
  }

  function ClockBody(c: Clock): string
    requires !c.NoClock?
  {
    match c
    case AtClock(_, at, hh, mm) => at + (" " + (hh + mm))
    case LocalClock(_, hh, mm, gap, l) => hh + (mm + (Mark(gap, ' ') + [l]))
  }

  function OfText(of: Option<string>): string { if of.Some? then of.value + " " else "" }

  function TextOf(p: Printed): string {
    p.current + (" " + (p.asWord + (" " + (OfText(p.of) + DateAndClock(p)))))
  }
  function DateAndClock(p: Printed): string { p.day + (" " + MonthPiece(p)) }
  function MonthPiece(p: Printed): string {
    p.month + (MarksAndYear(p) + Ending(p))
  }
  function MarksText(dot: bool, comma: bool, year: string): string {
    Mark(dot, '.') + (Mark(comma, ',') + (" " + year))
  }
  function MarksAndYear(p: Printed): string { MarksText(p.dot, p.comma, p.year) }

  // The moment of these numbers, if they name one.
  ghost function Moment(year: nat, month: Option<int>, day: nat, hour: nat, minute: nat, timed: bool, text: string)
    : Option<PageTime>
  {
    if month.Some? && 2020 <= year <= 2100 && IsDate(year, month.value, day) && hour <= 23 && minute <= 59
    then Some(PageTime(Date(year, month.value, day), hour, minute, timed, text))
    else None
  }

  // The moment a printed stamp names, if it names one.
  ghost function Named(p: Printed, text: string): Option<PageTime>
    requires D.AllDigits(p.day) && D.AllDigits(p.year) && ClockOk(p.clock)
  {
    var hour := if p.clock.NoClock? then 0 else D.Value(p.clock.hh);
    var minute := if p.clock.NoClock? then 0 else D.Value(p.clock.mm);
    Moment(D.Value(p.year), MonthNamed(LowerText(p.month)), D.Value(p.day), hour, minute, !p.clock.NoClock?, text)
  }

  // ---- text lying in a text ----

  ghost predicate LiesAt(t: string, i: nat, s: string) {
    i + |s| <= |t| && forall k :: 0 <= k < |s| ==> s[k] == t[i + k]
  }

  lemma LyingText(t: string, i: nat, s: string)
    requires i + |s| <= |t|
    ensures LiesAt(t, i, s) <==> t[i..i + |s|] == s
  {
    if t[i..i + |s|] == s {
      forall k | 0 <= k < |s| ensures s[k] == t[i + k] {
        assert s[k] == t[i..i + |s|][k];
      }
    }
  }

  lemma LiesSplit(t: string, i: nat, a: string, b: string)
    requires LiesAt(t, i, a + b)
    ensures LiesAt(t, i, a) && LiesAt(t, i + |a|, b) && |a + b| == |a| + |b|
  {
    forall k | 0 <= k < |a| ensures a[k] == t[i + k] {
      assert (a + b)[k] == a[k];
    }
    forall k | 0 <= k < |b| ensures b[k] == t[i + |a| + k] {
      assert (a + b)[|a| + k] == b[k];
    }
  }

  lemma LiesInThree(t: string, i: nat, a: string, b: string, c: string)
    requires LiesAt(t, i, a + (b + c))
    ensures LiesAt(t, i, a) && LiesAt(t, i + |a|, b) && LiesAt(t, i + |a| + |b|, c)
  {
    LiesSplit(t, i, a, b + c);
    LiesSplit(t, i + |a|, b, c);
  }

  lemma LyingDigits(t: string, i: nat, s: string)
    requires LiesAt(t, i, s) && D.AllDigits(s)
    ensures DigitsAt(t, i, |s|) && t[i..i + |s|] == s
  {
    LyingText(t, i, s);
    forall k | i <= k < i + |s| ensures '0' <= t[k] <= '9' {
      assert s[k - i] == t[i..i + |s|][k - i];
    }
  }

  lemma LyingChar(t: string, i: nat, c: char)
    requires LiesAt(t, i, [c])
    ensures i < |t| && t[i] == c
  {
    LyingText(t, i, [c]);
    assert t[i..i + 1][0] == t[i];
  }

  // ---- the clock ----

  function Boundary(): Stack { Push(Want(WordBoundary), Done) }
  function Just(re: Re): Stack { Push(Want(re), Done) }

  predicate CharAt(t: string, i: nat, c: char) { i < |t| && t[i] == c }

  // A mark that stands at i, and then ends at next, or is left out.
  predicate MarkAt(t: string, i: nat, present: bool, c: char, next: nat) {
    if present then CharAt(t, i, c) && next == i + 1 else next == i <= |t|
  }

  function ClockChoice(): Stack { Push(Want(Alt(AtPart(), LocalPart())), Boundary()) }

  predicate EndsWord(t: string, e: nat) { 0 < e <= |t| && IsWord(t[e - 1]) && (e == |t| || !IsWord(t[e])) }

  // What may follow "at HHMM": an end of word, with or without the letter L before it.
  predicate AfterAt(t: string, e: nat) {
    && 0 < e <= |t| && IsWord(t[e - 1])
    && (e == |t| || !IsWord(t[e]) || (Lower(t[e]) == 'l' && (e + 1 == |t| || !IsWord(t[e + 1]))))
  }

  // A match that keeps these captures and reaches at least this far.
  ghost predicate Takes(r: Option<Found>, end: nat, groups: Groups) {
    r.Some? && r.value.groups == groups && r.value.end >= end
  }

  lemma {:induction false} EndNotBefore(stack: Stack, t: string, i: nat, g: Groups)
    requires i <= |t| && Run(stack, t, i, g).Some?
    ensures Run(stack, t, i, g).value.end >= i
    decreases StackSize(stack)
  {
    match stack
    case Done =>
    case Push(Close(n, start), rest) => EndNotBefore(rest, t, i, g[n := Slice(t, start, i)]);
    case Push(Want(re), rest) =>
      var j, after := RunIsSound(re, rest, t, i, g);
      EndNotBefore(rest, t, j, after);
  }

  lemma MinutesEnd(t: string, e: nat, g: Groups)
    requires AfterAt(t, e)
    ensures Takes(Run(Push(Want(Cat(Star(SpaceKind), Opt(Lit('l')))), Boundary()), t, e, g), e, g)
  {
    var optional := Push(Want(Opt(Lit('l'))), Boundary());
    OptStep('l', Boundary(), t, e, g);
    if e < |t| && Lower(t[e]) == 'l' {
      assert IsWord(t[e]);
      assert Run(Boundary(), t, e + 1, g) == Some(Found(e + 1, g));
      StarStop(optional, t, e, g);
    } else {
      assert Run(Boundary(), t, e, g) == Some(Found(e, g));
      assert Run(optional, t, e, g).Some?;
    }
    var stack := Push(Want(Cat(Star(SpaceKind), Opt(Lit('l')))), Boundary());
    assert Run(stack, t, e, g) == Run(Push(Want(Star(SpaceKind)), optional), t, e, g);
    PlainKeepsGroups(stack, t, e, g);
    EndNotBefore(stack, t, e, g);
  }

  lemma AtPartRuns(t: string, i: nat, g: Groups)
    requires StandsAt(t, i, "at") && SpaceAt(t, i + 2) && !SpaceAt(t, i + 3)
    requires DigitsAt(t, i + 3, 4) && AfterAt(t, i + 7)
    ensures Takes(Run(Push(Want(AtPart()), Boundary()), t, i, g), i + 7, g[4 := t[i + 3..i + 5]][5 := t[i + 5..i + 7]])
  {
    var tail := Cat(Star(SpaceKind), Opt(Lit('l')));
    var minutes := Cat(Group(5, Digits(2)), tail);
    var hours := Cat(Group(4, Digits(2)), minutes);
    var g4 := g[4 := t[i + 3..i + 5]];
    WordStep("at", Push(Want(Cat(Spaces(), hours)), Boundary()), t, i, g);
    SpacesStep(Push(Want(hours), Boundary()), t, i + 2, g);
    DigitGroupStep(4, 2, Push(Want(minutes), Boundary()), t, i + 3, g);
    DigitGroupStep(5, 2, Push(Want(tail), Boundary()), t, i + 5, g4);
    MinutesEnd(t, i + 7, g4[5 := t[i + 5..i + 7]]);
  }

  // `\s*` over one blank that is there or not.
  lemma BlankRuns(present: bool, rest: Stack, t: string, i: nat, next: nat, g: Groups)
    requires MarkAt(t, i, present, ' ', next) && !SpaceAt(t, next)
    requires Run(rest, t, next, g).Some?
    ensures Run(Push(Want(Star(SpaceKind)), rest), t, i, g) == Run(rest, t, next, g)
  {
    if present {
      StarOne(rest, t, i, g);
    } else {
      StarStop(rest, t, i, g);
    }
  }

  lemma LocalPartRuns(t: string, i: nat, gap: bool, e: nat, g: Groups)
    requires DigitsAt(t, i, 4) && MarkAt(t, i + 4, gap, ' ', e) && StandsAt(t, e, "l") && EndsWord(t, e + 1)
    ensures Run(Push(Want(LocalPart()), Boundary()), t, i, g)
         == Some(Found(e + 1, g[6 := t[i..i + 2]][7 := t[i + 2..i + 4]]))
  {
    var tail := Cat(Star(SpaceKind), Lit('l'));
    var minutes := Cat(Group(7, Digits(2)), tail);
    var letter := Push(Want(Lit('l')), Boundary());
    var g6 := g[6 := t[i..i + 2]];
    var g7 := g6[7 := t[i + 2..i + 4]];
    DigitGroupStep(6, 2, Push(Want(minutes), Boundary()), t, i, g);
    DigitGroupStep(7, 2, Push(Want(tail), Boundary()), t, i + 2, g6);
    assert Lower(t[e]) == "l"[0];
    assert Run(Boundary(), t, e + 1, g7) == Some(Found(e + 1, g7));
    assert Run(letter, t, e, g7) == Some(Found(e + 1, g7));
    BlankRuns(gap, letter, t, i + 4, e, g7);
  }

  // The optional comma and blank before a clock that stands at s.
  lemma ClockTailTakes(t: string, y: nat, comma: bool, q: nat, spaced: bool, s: nat, g: Groups, end: nat,
                       ended: Groups)
    requires MarkAt(t, y, comma, ',', q) && MarkAt(t, q, spaced, ' ', s)
    requires s < |t| && Lower(t[s]) != ',' && !SpaceAt(t, s)
    requires Takes(Run(ClockChoice(), t, s, g), end, ended)
    ensures Takes(Run(Just(CommaTail()), t, y, g), end, ended)
  {
    BlankRuns(spaced, ClockChoice(), t, q, s, g);
    assert Run(Push(Want(ClockPart()), Boundary()), t, q, g) == Run(ClockChoice(), t, s, g);
    assert Run(Just(ClockTail()), t, q, g) == Run(ClockChoice(), t, s, g);
    MarkRuns(comma, ',', Just(ClockTail()), t, y, q, g);
  }

  function ClockGroups(c: Clock, g: Groups): Groups {
    match c
    case NoClock => g
    case AtClock(_, _, hh, mm) => g[4 := hh][5 := mm]
    case LocalClock(_, hh, mm, _, _) => g[6 := hh][7 := mm]
  }

  // What may follow each shape of stamp ending at e.
  predicate ClockEnds(c: Clock, t: string, e: nat) {
    match c
    case NoClock => EndsWord(t, e) && !ClockStarts(t, e) && (e < |t| && t[e] == ',' ==> !ClockStarts(t, e + 1))
    case AtClock(_, _, _, _) => AfterAt(t, e)
    case LocalClock(_, _, _, _, _) => EndsWord(t, e)
  }

  lemma AtChoiceRuns(t: string, s: nat, g: Groups)
    requires AtShape(t, s) && !SpaceAt(t, s + 3) && AfterAt(t, s + 7)
    ensures Takes(Run(ClockChoice(), t, s, g), s + 7, g[4 := t[s + 3..s + 5]][5 := t[s + 5..s + 7]])
  {
    AtPartRuns(t, s, g);
  }

  lemma LocalChoiceRuns(t: string, s: nat, gap: bool, e: nat, g: Groups)
    requires DigitsAt(t, s, 4) && MarkAt(t, s + 4, gap, ' ', e) && StandsAt(t, e, "l") && EndsWord(t, e + 1)
    ensures Takes(Run(ClockChoice(), t, s, g), e + 1, g[6 := t[s..s + 2]][7 := t[s + 2..s + 4]])
  {
    LocalPartRuns(t, s, gap, e, g);
    var after := Cat(Spaces(), Cat(Group(4, Digits(2)), Cat(Group(5, Digits(2)), Cat(Star(SpaceKind), Opt(Lit('l'))))));
    WordStep("at", Push(Want(after), Boundary()), t, s, g);
  }

  // ---- a printed clock ----

  lemma LyingMark(t: string, i: nat, present: bool, c: char)
    requires LiesAt(t, i, Mark(present, c))
    ensures MarkAt(t, i, present, c, i + |Mark(present, c)|)
  {
    if present {
      LyingChar(t, i, c);
    }
  }

  lemma LyingWord(t: string, i: nat, s: string, w: string)
    requires LiesAt(t, i, s) && LowerText(s) == w
    ensures StandsAt(t, i, w)
  {
    LyingText(t, i, s);
    forall k | i <= k < i + |w| ensures Lower(t[k]) == w[k - i] {
      assert s[k - i] == t[i..i + |s|][k - i];
      assert LowerText(s)[k - i] == Lower(s[k - i]);
    }
  }

  lemma AtPieces(t: string, s: nat, at: string, hh: string, mm: string)
    requires LowerText(at) == "at" && TwoDigits(hh) && TwoDigits(mm) && LiesAt(t, s, at + (" " + (hh + mm)))
    ensures |at + (" " + (hh + mm))| == 7 && AtShape(t, s) && !SpaceAt(t, s + 3)
    ensures t[s + 3..s + 5] == hh && t[s + 5..s + 7] == mm
  {
    assert |at| == |LowerText(at)| == 2;
    LiesInThree(t, s, at, " ", hh + mm);
    LiesSplit(t, s + 3, hh, mm);
    LyingWord(t, s, at, "at");
    LyingChar(t, s + 2, ' ');
    LyingDigits(t, s + 3, hh);
    LyingDigits(t, s + 5, mm);
  }

  lemma AtClockLies(t: string, s: nat, c: Clock)
    requires c.AtClock? && ClockOk(c) && LiesAt(t, s, ClockBody(c))
    ensures |ClockBody(c)| == 7 && AtShape(t, s) && !SpaceAt(t, s + 3)
    ensures t[s + 3..s + 5] == c.hh && t[s + 5..s + 7] == c.mm
  {
    AtPieces(t, s, c.at, c.hh, c.mm);
  }

  lemma LocalPieces(t: string, s: nat, hh: string, mm: string, gap: bool, l: char) returns (e: nat)
    requires TwoDigits(hh) && TwoDigits(mm) && LiesAt(t, s, hh + (mm + (Mark(gap, ' ') + [l])))
    ensures e + 1 == s + |hh + (mm + (Mark(gap, ' ') + [l]))| && DigitsAt(t, s, 4)
    ensures MarkAt(t, s + 4, gap, ' ', e) && CharAt(t, e, l)
    ensures t[s..s + 2] == hh && t[s + 2..s + 4] == mm
  {
    e := s + 4 + |Mark(gap, ' ')|;
    LiesInThree(t, s, hh, mm, Mark(gap, ' ') + [l]);
    LiesSplit(t, s + 4, Mark(gap, ' '), [l]);
    LyingDigits(t, s, hh);
    LyingDigits(t, s + 2, mm);
    LyingMark(t, s + 4, gap, ' ');
    LyingChar(t, e, l);
  }

  lemma LocalClockLies(t: string, s: nat, c: Clock) returns (e: nat)
    requires c.LocalClock? && ClockOk(c) && LiesAt(t, s, ClockBody(c))
    ensures e + 1 == s + |ClockBody(c)| && DigitsAt(t, s, 4)
    ensures MarkAt(t, s + 4, c.gap, ' ', e) && StandsAt(t, e, "l")
    ensures t[s..s + 2] == c.hh && t[s + 2..s + 4] == c.mm
  {
    e := LocalPieces(t, s, c.hh, c.mm, c.gap, c.l);
  }

  lemma ClockRuns(t: string, s: nat, c: Clock, g: Groups, end: nat)
    requires !c.NoClock? && ClockOk(c) && LiesAt(t, s, ClockBody(c))
    requires end == s + |ClockBody(c)| && ClockEnds(c, t, end)
    ensures Takes(Run(ClockChoice(), t, s, g), end, ClockGroups(c, g))
    ensures s < |t| && Lower(t[s]) != ',' && !SpaceAt(t, s)
  {
    if c.AtClock? {
      AtClockLies(t, s, c);
      AtChoiceRuns(t, s, g);
      assert Lower(t[s]) == "at"[0];
    } else {
      var e := LocalClockLies(t, s, c);
      LocalChoiceRuns(t, s, c.gap, e, g);
    }
  }

  // ---- no clock ----

  predicate AtShape(t: string, s: nat) { StandsAt(t, s, "at") && SpaceAt(t, s + 2) && DigitsAt(t, s + 3, 4) }

  predicate LocalShape(t: string, s: nat) {
    DigitsAt(t, s, 4) && (StandsAt(t, s + 4, "l") || (SpaceAt(t, s + 4) && StandsAt(t, s + 5, "l")))
  }

  // Text that the optional clock of the expression could take, in single-spaced text.
  predicate ClockStarts(t: string, r: nat) {
    var s := if SpaceAt(t, r) then r + 1 else r;
    AtShape(t, s) || LocalShape(t, s)
  }

  lemma AtPartNeedsItsShape(t: string, s: nat, g: Groups)
    requires s <= |t| && SingleSpaced(t) && !AtShape(t, s)
    ensures Run(Push(Want(AtPart()), Boundary()), t, s, g).None?
  {
    var minutes := Cat(Group(5, Digits(2)), Cat(Star(SpaceKind), Opt(Lit('l'))));
    var hours := Cat(Group(4, Digits(2)), minutes);
    WordStep("at", Push(Want(Cat(Spaces(), hours)), Boundary()), t, s, g);
    if StandsAt(t, s, "at") {
      SpacesStep(Push(Want(hours), Boundary()), t, s + 2, g);
      if SpaceAt(t, s + 2) {
        DigitGroupStep(4, 2, Push(Want(minutes), Boundary()), t, s + 3, g);
        if DigitsAt(t, s + 3, 2) {
          var ending := Push(Want(Cat(Star(SpaceKind), Opt(Lit('l')))), Boundary());
          DigitGroupStep(5, 2, ending, t, s + 5, g[4 := t[s + 3..s + 5]]);
        }
      }
    }
  }

  lemma LocalPartNeedsItsShape(t: string, s: nat, g: Groups)
    requires s <= |t| && SingleSpaced(t) && !LocalShape(t, s)
    ensures Run(Push(Want(LocalPart()), Boundary()), t, s, g).None?
  {
    var tail := Cat(Star(SpaceKind), Lit('l'));
    var letter := Push(Want(Lit('l')), Boundary());
    DigitGroupStep(6, 2, Push(Want(Cat(Group(7, Digits(2)), tail)), Boundary()), t, s, g);
    if DigitsAt(t, s, 2) {
      var g6 := g[6 := t[s..s + 2]];
      DigitGroupStep(7, 2, Push(Want(tail), Boundary()), t, s + 2, g6);
      if DigitsAt(t, s + 2, 2) {
        var g7 := g6[7 := t[s + 2..s + 4]];
        assert Run(letter, t, s + 4, g7).None?;
        if SpaceAt(t, s + 4) {
          StarOne(letter, t, s + 4, g7);
          assert Run(letter, t, s + 5, g7).None?;
        } else {
          StarStop(letter, t, s + 4, g7);
        }
      }
    }
  }

  lemma ClockChoiceFails(t: string, s: nat, g: Groups)
    requires s <= |t| && SingleSpaced(t) && !AtShape(t, s) && !LocalShape(t, s)
    ensures Run(ClockChoice(), t, s, g).None?
  {
    AtPartNeedsItsShape(t, s, g);
    LocalPartNeedsItsShape(t, s, g);
  }

  // Where no clock can start, the tail is only the word boundary.
  lemma ClockTailSkips(t: string, r: nat, g: Groups)
    requires r <= |t| && SingleSpaced(t) && !ClockStarts(t, r)
    ensures Run(Just(ClockTail()), t, r, g) == if AtBoundary(t, r) then Some(Found(r, g)) else None
  {
    ClockPartFails(t, r, g);
    OptionalSkips(ClockPart(), Boundary(), t, r, g);
  }

  lemma ClockPartFails(t: string, r: nat, g: Groups)
    requires r <= |t| && SingleSpaced(t) && !ClockStarts(t, r)
    ensures Run(Push(Want(ClockPart()), Boundary()), t, r, g).None?
  {
    if SpaceAt(t, r) {
      ClockChoiceFails(t, r + 1, g);
      ClockChoiceFails(t, r, g);
      StarOne(ClockChoice(), t, r, g);
    } else {
      ClockChoiceFails(t, r, g);
      StarStop(ClockChoice(), t, r, g);
    }
    CatStep(Star(SpaceKind), Alt(AtPart(), LocalPart()), Boundary(), t, r, g);
  }

  lemma CatStep(a: Re, b: Re, rest: Stack, t: string, i: nat, g: Groups)
    requires i <= |t|
    ensures Run(Push(Want(Cat(a, b)), rest), t, i, g) == Run(Push(Want(a), Push(Want(b), rest)), t, i, g)
  {
  }

  lemma OptionalSkips(x: Re, rest: Stack, t: string, i: nat, g: Groups)
    requires i <= |t| && Run(Push(Want(x), rest), t, i, g).None?
    ensures Run(Push(Want(Opt(x)), rest), t, i, g) == Run(rest, t, i, g)
  {
    assert Run(Push(Want(Empty), rest), t, i, g) == Run(rest, t, i, g);
  }

  lemma OptionalTakes(x: Re, rest: Stack, t: string, i: nat, g: Groups)
    requires i <= |t| && Run(Push(Want(x), rest), t, i, g).Some?
    ensures Run(Push(Want(Opt(x)), rest), t, i, g) == Run(Push(Want(x), rest), t, i, g)
  {
  }

  lemma BareTailRuns(t: string, e: nat, g: Groups)
    requires SingleSpaced(t) && ClockEnds(NoClock, t, e)
    ensures Takes(Run(Just(CommaTail()), t, e, g), e, g)
  {
    OptStep(',', Just(ClockTail()), t, e, g);
    ClockTailSkips(t, e, g);
    if e < |t| && Lower(t[e]) == ',' {
      ClockTailSkips(t, e + 1, g);
    }
  }

  // ---- from the year back to the start, for any expression that follows ----

  lemma TwoMarksLie(t: string, i: nat, first: bool, a: char, second: bool, b: char, rest: string)
    returns (q: nat, s: nat)
    requires LiesAt(t, i, Mark(first, a) + (Mark(second, b) + rest))
    ensures MarkAt(t, i, first, a, q) && MarkAt(t, q, second, b, s) && LiesAt(t, s, rest)
    ensures s + |rest| == i + |Mark(first, a) + (Mark(second, b) + rest)|
  {
    q := i + |Mark(first, a)|;
    s := q + |Mark(second, b)|;
    LiesSplit(t, i, Mark(first, a), Mark(second, b) + rest);
    LiesSplit(t, q, Mark(second, b), rest);
    LyingMark(t, i, first, a);
    LyingMark(t, q, second, b);
  }

  lemma MarksThenClock(t: string, y: nat, comma: bool, c: Clock) returns (q: nat, s: nat)
    requires !c.NoClock? && LiesAt(t, y, Mark(comma, ',') + ClockText(c))
    ensures MarkAt(t, y, comma, ',', q) && MarkAt(t, q, c.spaced, ' ', s) && LiesAt(t, s, ClockBody(c))
    ensures s + |ClockBody(c)| == y + |Mark(comma, ',') + ClockText(c)|
  {
    q, s := TwoMarksLie(t, y, comma, ',', c.spaced, ' ', ClockBody(c));
  }

  lemma CommaAndClockRun(t: string, y: nat, comma: bool, c: Clock, g: Groups, end: nat)
    requires ClockOk(c) && !c.NoClock? && LiesAt(t, y, Mark(comma, ',') + ClockText(c))
    requires end == y + |Mark(comma, ',') + ClockText(c)| && ClockEnds(c, t, end)
    ensures Takes(Run(Just(CommaTail()), t, y, g), end, ClockGroups(c, g))
  {
    var q, s := MarksThenClock(t, y, comma, c);
    ClockAfterMarks(t, y, comma, q, s, c, g, end);
  }

  lemma ClockAfterMarks(t: string, y: nat, comma: bool, q: nat, s: nat, c: Clock, g: Groups, end: nat)
    requires ClockOk(c) && !c.NoClock? && LiesAt(t, s, ClockBody(c))
    requires MarkAt(t, y, comma, ',', q) && MarkAt(t, q, c.spaced, ' ', s)
    requires end == s + |ClockBody(c)| && ClockEnds(c, t, end)
    ensures Takes(Run(Just(CommaTail()), t, y, g), end, ClockGroups(c, g))
  {
    ClockRuns(t, s, c, g, end);
    ClockTailTakes(t, y, comma, q, c.spaced, s, g, end, ClockGroups(c, g));
  }

  // What follows the year.
  function Ending(p: Printed): string { Mark(p.yearComma, ',') + ClockText(p.clock) }

  lemma EndingRuns(t: string, y: nat, p: Printed, g: Groups, end: nat)
    requires ClockOk(p.clock) && (p.clock.NoClock? ==> !p.yearComma) && SingleSpaced(t)
    requires LiesAt(t, y, Ending(p)) && end == y + |Ending(p)| && ClockEnds(p.clock, t, end)
    ensures Takes(Run(Just(CommaTail()), t, y, g), end, ClockGroups(p.clock, g))
  {
    if p.clock.NoClock? {
      assert Ending(p) == "";
      BareTailRuns(t, y, g);
    } else {
      CommaAndClockRun(t, y, p.yearComma, p.clock, g, end);
    }
  }

  // `c?` over a mark that is there or not.
  lemma MarkRuns(present: bool, c: char, rest: Stack, t: string, i: nat, next: nat, g: Groups)
    requires MarkAt(t, i, present, c, next) && Lower(c) == c && Run(rest, t, next, g).Some?
    requires !present ==> i < |t| && Lower(t[i]) != c
    ensures Run(Push(Want(Opt(Lit(c))), rest), t, i, g) == Run(rest, t, next, g)
  {
    OptStep(c, rest, t, i, g);
  }

  lemma SpaceThen(tail: Re, t: string, i: nat, g: Groups)
    requires SingleSpaced(t) && CharAt(t, i, ' ')
    ensures Run(Just(Cat(Spaces(), tail)), t, i, g) == Run(Just(tail), t, i + 1, g)
  {
    SpacesStep(Just(tail), t, i, g);
    CatStep(Spaces(), tail, Done, t, i, g);
  }

  lemma MarksThen(tail: Re, t: string, m: nat, dot: bool, c: nat, comma: bool, s: nat, g: Groups)
    requires SingleSpaced(t) && MarkAt(t, m, dot, '.', c) && MarkAt(t, c, comma, ',', s) && CharAt(t, s, ' ')
    requires Run(Just(tail), t, s + 1, g).Some?
    ensures Run(Just(Cat(Opt(Lit('.')), Cat(Opt(Lit(',')), Cat(Spaces(), tail)))), t, m, g)
         == Run(Just(tail), t, s + 1, g)
  {
    var spaced := Cat(Spaces(), tail);
    SpaceThen(tail, t, s, g);
    MarkRuns(comma, ',', Just(spaced), t, c, s, g);
    CatStep(Opt(Lit(',')), spaced, Done, t, c, g);
    MarkRuns(dot, '.', Just(Cat(Opt(Lit(',')), spaced)), t, m, c, g);
    CatStep(Opt(Lit('.')), Cat(Opt(Lit(',')), spaced), Done, t, m, g);
  }

  lemma YearThen(tail: Re, t: string, q: nat, g: Groups)
    requires DigitsAt(t, q, 4)
    ensures Run(Just(Cat(Group(3, Digits(4)), tail)), t, q, g) == Run(Just(tail), t, q + 4, g[3 := t[q..q + 4]])
  {
    DigitGroupStep(3, 4, Just(tail), t, q, g);
    CatStep(Group(3, Digits(4)), tail, Done, t, q, g);
  }

  // Month words the expression can tell apart by trying them in order.
  ghost predicate Orderly(words: seq<string>) {
    words != [] && LongestFirst(words) && forall k :: 0 <= k < |words| ==> Letters(words[k])
  }

  lemma StandsItself(t: string, q: nat, m: nat)
    requires q <= m <= |t|
    ensures StandsAt(t, q, LowerText(t[q..m])) && |LowerText(t[q..m])| == m - q
  {
  }

  lemma MonthThen(words: seq<string>, tail: Re, t: string, q: nat, m: nat, g: Groups)
    requires Orderly(words) && q <= m < |t| && LowerText(t[q..m]) in words && t[m] in {'.', ',', ' '}
    requires Run(Just(tail), t, m, g[2 := t[q..m]]).Some?
    ensures Run(Just(Cat(Group(2, AnyOf(words)), tail)), t, q, g) == Run(Just(tail), t, m, g[2 := t[q..m]])
  {
    var closing := Push(Close(2, q), Just(tail));
    StandsItself(t, q, m);
    AnyOfStep(words, LowerText(t[q..m]), closing, t, q, g);
    GroupOpens(2, AnyOf(words), Just(tail), t, q, g);
    CatStep(Group(2, AnyOf(words)), tail, Done, t, q, g);
  }

  lemma GroupOpens(n: nat, body: Re, rest: Stack, t: string, i: nat, g: Groups)
    requires i <= |t|
    ensures Run(Push(Want(Group(n, body)), rest), t, i, g) == Run(Push(Want(body), Push(Close(n, i), rest)), t, i, g)
  {
  }

  lemma DayThen(tail: Re, t: string, d: nat, e: nat, g: Groups)
    requires DayAt(t, d, e) && Run(Just(tail), t, e, g[1 := t[d..e]]).Some?
    ensures Run(Just(Cat(Group(1, DayDigits()), tail)), t, d, g) == Run(Just(tail), t, e, g[1 := t[d..e]])
  {
    var closing := Push(Close(1, d), Just(tail));
    DayDigitsRun(closing, t, d, e, g);
    GroupOpens(1, DayDigits(), Just(tail), t, d, g);
    CatStep(Group(1, DayDigits()), tail, Done, t, d, g);
  }

  lemma DayDigitsRun(rest: Stack, t: string, d: nat, e: nat, g: Groups)
    requires DayAt(t, d, e) && Run(rest, t, e, g).Some?
    ensures Run(Push(Want(DayDigits()), rest), t, d, g) == Run(rest, t, e, g)
  {
    var second := Push(Want(Opt(One(DigitKind))), rest);
    CatStep(One(DigitKind), Opt(One(DigitKind)), rest, t, d, g);
    assert Run(Push(Want(One(DigitKind)), second), t, d, g) == Run(second, t, d + 1, g);
    if e == d + 1 {
      OptionalSkips(One(DigitKind), rest, t, d + 1, g);
    } else {
      assert '0' <= t[d + 1] <= '9';
      OptionalTakes(One(DigitKind), rest, t, d + 1, g);
    }
  }

  lemma OfThen(tail: Re, t: string, q: nat, of: bool, d: nat, g: Groups)
    requires SingleSpaced(t) && OfAt(t, q, of, d) && d < |t| && D.IsDigit(t[d]) && Run(Just(tail), t, d, g).Some?
    ensures Run(Just(Cat(Opt(Cat(Word("of"), Spaces())), tail)), t, q, g) == Run(Just(tail), t, d, g)
  {
    var words := Cat(Word("of"), Spaces());
    WordStep("of", Push(Want(Spaces()), Just(tail)), t, q, g);
    CatStep(Word("of"), Spaces(), Just(tail), t, q, g);
    CatStep(Opt(words), tail, Done, t, q, g);
    if of {
      SpacesStep(Just(tail), t, q + 2, g);
      OptionalTakes(words, Just(tail), t, q, g);
    } else {
      OptionalSkips(words, Just(tail), t, q, g);
    }
  }

  lemma WordThen(w: string, tail: Re, t: string, i: nat, g: Groups)
    requires StandsAt(t, i, w)
    ensures Run(Just(Cat(Word(w), tail)), t, i, g) == Run(Just(tail), t, i + |w|, g)
  {
    WordStep(w, Just(tail), t, i, g);
    CatStep(Word(w), tail, Done, t, i, g);
  }

  // ---- where the pieces of a stamp stand ----

  predicate LeadAt(t: string, i: nat) {
    StandsAt(t, i, "current") && CharAt(t, i + 7, ' ') && StandsAt(t, i + 8, "as") && CharAt(t, i + 10, ' ')
  }

  predicate OfAt(t: string, q: nat, of: bool, d: nat) {
    if of then StandsAt(t, q, "of") && CharAt(t, q + 2, ' ') && d == q + 3 else d == q
  }

  predicate DayAt(t: string, d: nat, e: nat) { 1 <= e - d <= 2 && DigitsAt(t, d, e - d) && CharAt(t, e, ' ') }

  predicate MarksAt(t: string, m: nat, dot: bool, c: nat, comma: bool, s: nat) {
    && MarkAt(t, m, dot, '.', c) && MarkAt(t, c, comma, ',', s)
    && CharAt(t, s, ' ') && DigitsAt(t, s + 1, 4)
  }

  function MarksThenYear(tail: Re): Re {
    Cat(Opt(Lit('.')), Cat(Opt(Lit(',')), Cat(Spaces(), Cat(Group(3, Digits(4)), tail))))
  }

  // From the month to the year, whatever follows.
  lemma MonthToYear(words: seq<string>, tail: Re, t: string, q: nat, m: nat, dot: bool, c: nat, comma: bool, s: nat,
                    g: Groups, end: nat, ended: Groups)
    requires Orderly(words) && SingleSpaced(t) && q <= m <= |t| && LowerText(t[q..m]) in words
    requires MarksAt(t, m, dot, c, comma, s)
    requires Takes(Run(Just(tail), t, s + 5, g[2 := t[q..m]][3 := t[s + 1..s + 5]]), end, ended)
    ensures Takes(Run(Just(Cat(Group(2, AnyOf(words)), MarksThenYear(tail))), t, q, g), end, ended)
  {
    var g2 := g[2 := t[q..m]];
    YearThen(tail, t, s + 1, g2);
    MarksThen(Cat(Group(3, Digits(4)), tail), t, m, dot, c, comma, s, g2);
    MonthThen(words, MarksThenYear(tail), t, q, m, g);
  }

  // The optional "of" and the day, whatever follows.
  lemma OfToDay(tail: Re, t: string, q: nat, of: bool, d: nat, e: nat, g: Groups, end: nat, ended: Groups)
    requires SingleSpaced(t) && OfAt(t, q, of, d) && DayAt(t, d, e)
    requires Takes(Run(Just(tail), t, e + 1, g[1 := t[d..e]]), end, ended)
    ensures Takes(Run(Just(OfTail(tail)), t, q, g), end, ended)
  {
    SpaceThen(tail, t, e, g[1 := t[d..e]]);
    DayThen(Cat(Spaces(), tail), t, d, e, g);
    OfThen(DayTail(tail), t, q, of, d, g);
  }

  lemma LeadRuns(tail: Re, t: string, i: nat, g: Groups)
    requires SingleSpaced(t) && LeadAt(t, i)
    ensures Run(Just(Leading(tail)), t, i, g) == Run(Just(tail), t, i + 11, g)
  {
    SpaceThen(tail, t, i + 10, g);
    WordThen("as", Cat(Spaces(), tail), t, i + 8, g);
    SpaceThen(Cat(Word("as"), Cat(Spaces(), tail)), t, i + 7, g);
    WordThen("current", Cat(Spaces(), Cat(Word("as"), Cat(Spaces(), tail))), t, i, g);
  }

  // A stamp's date, whatever follows the year.
  lemma DatedRuns(words: seq<string>, tail: Re, t: string, i: nat, of: bool, d: nat, e: nat, m: nat, dot: bool, c: nat,
                  comma: bool, s: nat, end: nat, ended: Groups)
    requires Orderly(words) && SingleSpaced(t) && LeadAt(t, i) && OfAt(t, i + 11, of, d) && DayAt(t, d, e)
    requires e < m <= |t| && LowerText(t[e + 1..m]) in words && MarksAt(t, m, dot, c, comma, s)
    requires Takes(Run(Just(tail), t, s + 5, NoGroups()[1 := t[d..e]][2 := t[e + 1..m]][3 := t[s + 1..s + 5]]),
                   end, ended)
    ensures Takes(MatchAt(Leading(OfTail(Cat(Group(2, AnyOf(words)), MarksThenYear(tail)))), t, i), end, ended)
  {
    var month := Cat(Group(2, AnyOf(words)), MarksThenYear(tail));
    MonthToYear(words, tail, t, e + 1, m, dot, c, comma, s, NoGroups()[1 := t[d..e]], end, ended);
    OfToDay(month, t, i + 11, of, d, e, NoGroups(), end, ended);
    LeadRuns(OfTail(month), t, i, NoGroups());
  }

  // ---- the whole stamp ----

  function DateGroups(p: Printed): Groups { NoGroups()[1 := p.day][2 := p.month][3 := p.year] }

  lemma MarksLie(t: string, m: nat, dot: bool, comma: bool, year: string) returns (c: nat, s: nat)
    requires |year| == 4 && D.AllDigits(year) && LiesAt(t, m, MarksText(dot, comma, year))
    ensures MarksAt(t, m, dot, c, comma, s) && t[s + 1..s + 5] == year
    ensures s + 5 == m + |MarksText(dot, comma, year)|
  {
    c, s := TwoMarksLie(t, m, dot, '.', comma, ',', " " + year);
    LiesSplit(t, s, " ", year);
    LyingChar(t, s, ' ');
    LyingDigits(t, s + 1, year);
  }

  lemma OfLies(t: string, q: nat, of: Option<string>) returns (d: nat)
    requires (of.Some? ==> LowerText(of.value) == "of") && LiesAt(t, q, OfText(of))
    ensures OfAt(t, q, of.Some?, d) && d == q + |OfText(of)|
  {
    d := q + |OfText(of)|;
    if of.Some? {
      assert |of.value| == |LowerText(of.value)| == 2;
      LiesSplit(t, q, of.value, " ");
      LyingWord(t, q, of.value, "of");
      LyingChar(t, q + 2, ' ');
    }
  }

  lemma LeadLies(t: string, i: nat, current: string, asWord: string, rest: string)
    requires LowerText(current) == "current" && LowerText(asWord) == "as"
    requires LiesAt(t, i, current + (" " + (asWord + (" " + rest))))
    ensures LeadAt(t, i) && LiesAt(t, i + 11, rest) && |current + (" " + (asWord + (" " + rest)))| == 11 + |rest|
  {
    assert |current| == |LowerText(current)| == 7 && |asWord| == |LowerText(asWord)| == 2;
    LiesInThree(t, i, current, " ", asWord + (" " + rest));
    LiesInThree(t, i + 8, asWord, " ", rest);
    LyingWord(t, i, current, "current");
    LyingWord(t, i + 8, asWord, "as");
    LyingChar(t, i + 7, ' ');
    LyingChar(t, i + 10, ' ');
  }

  lemma DayLies(t: string, d: nat, day: string, rest: string) returns (e: nat)
    requires 1 <= |day| <= 2 && D.AllDigits(day) && LiesAt(t, d, day + (" " + rest))
    ensures DayAt(t, d, e) && t[d..e] == day && LiesAt(t, e + 1, rest) && e + 1 + |rest| == d + |day + (" " + rest)|
  {
    e := d + |day|;
    LiesInThree(t, d, day, " ", rest);
    LyingDigits(t, d, day);
    LyingChar(t, e, ' ');
  }

  lemma MonthLies(t: string, q: nat, month: string, marks: string, ending: string)
    requires LiesAt(t, q, month + (marks + ending))
    ensures q + |month| <= |t| && t[q..q + |month|] == month
    ensures LiesAt(t, q + |month|, marks) && LiesAt(t, q + |month| + |marks|, ending)
    ensures |month + (marks + ending)| == |month| + |marks| + |ending|
  {
    LiesInThree(t, q, month, marks, ending);
    LyingText(t, q, month);
  }

  lemma DatePieces(t: string, q: nat, of: Option<string>, day: string, month: string, marks: string, ending: string)
    returns (d: nat, e: nat, m: nat)
    requires 1 <= |day| <= 2 && D.AllDigits(day) && (of.Some? ==> LowerText(of.value) == "of")
    requires LiesAt(t, q, OfText(of) + (day + (" " + (month + (marks + ending)))))
    ensures OfAt(t, q, of.Some?, d) && DayAt(t, d, e) && t[d..e] == day
    ensures e < m <= |t| && t[e + 1..m] == month && LiesAt(t, m, marks) && LiesAt(t, m + |marks|, ending)
    ensures m + |marks| + |ending| == q + |OfText(of) + (day + (" " + (month + (marks + ending))))|
  {
    var rest := month + (marks + ending);
    LiesSplit(t, q, OfText(of), day + (" " + rest));
    d := OfLies(t, q, of);
    e := DayLies(t, d, day, rest);
    m := e + 1 + |month|;
    MonthLies(t, e + 1, month, marks, ending);
  }

  lemma DateStandsIn(t: string, q: nat, of: Option<string>, day: string, month: string, dot: bool, comma: bool,
                     year: string, ending: string)
    returns (d: nat, e: nat, m: nat, c: nat, s: nat)
    requires 1 <= |day| <= 2 && D.AllDigits(day) && (of.Some? ==> LowerText(of.value) == "of")
    requires |year| == 4 && D.AllDigits(year)
    requires LiesAt(t, q, OfText(of) + (day + (" " + (month + (MarksText(dot, comma, year) + ending)))))
    ensures OfAt(t, q, of.Some?, d) && DayAt(t, d, e) && e < m && MarksAt(t, m, dot, c, comma, s)
    ensures t[d..e] == day && t[e + 1..m] == month && t[s + 1..s + 5] == year && LiesAt(t, s + 5, ending)
    ensures s + 5 + |ending| == q + |OfText(of) + (day + (" " + (month + (MarksText(dot, comma, year) + ending))))|
  {
    d, e, m := DatePieces(t, q, of, day, month, MarksText(dot, comma, year), ending);
    c, s := MarksLie(t, m, dot, comma, year);
  }

  // Where the pieces of a printed date stand.
  ghost predicate DateStands(t: string, i: nat, p: Printed, d: nat, e: nat, m: nat, c: nat, s: nat) {
    && LeadAt(t, i) && OfAt(t, i + 11, p.of.Some?, d) && DayAt(t, d, e) && e < m && MarksAt(t, m, p.dot, c, p.comma, s)
    && t[d..e] == p.day && t[e + 1..m] == p.month && t[s + 1..s + 5] == p.year
  }

  lemma StampStandsIn(t: string, i: nat, p: Printed, date: string, words: seq<string>)
    returns (d: nat, e: nat, m: nat, c: nat, s: nat)
    requires WellPrinted(p, words) && date == OfText(p.of) + DateAndClock(p)
    requires LiesAt(t, i, p.current + (" " + (p.asWord + (" " + date))))
    ensures DateStands(t, i, p, d, e, m, c, s) && LiesAt(t, s + 5, Ending(p))
    ensures s + 5 + |Ending(p)| == i + |p.current + (" " + (p.asWord + (" " + date)))|
  {
    LeadLies(t, i, p.current, p.asWord, date);
    d, e, m, c, s := DateStandsIn(t, i + 11, p.of, p.day, p.month, p.dot, p.comma, p.year, Ending(p));
  }

  lemma StampStands(t: string, i: nat, p: Printed, words: seq<string>, end: nat)
    returns (d: nat, e: nat, m: nat, c: nat, s: nat)
    requires WellPrinted(p, words) && LiesAt(t, i, TextOf(p)) && end == i + |TextOf(p)|
    ensures DateStands(t, i, p, d, e, m, c, s) && LiesAt(t, s + 5, Ending(p)) && end == s + 5 + |Ending(p)|
  {
    d, e, m, c, s := StampStandsIn(t, i, p, OfText(p.of) + DateAndClock(p), words);
  }

  // A match that takes all the rest of it takes.
  ghost predicate Continues(whole: Option<Found>, rest: Option<Found>) {
    rest.Some? ==> Takes(whole, rest.value.end, rest.value.groups)
  }

  // A date that stands is read, and the rest of the match is what follows its year.
  lemma StandingDateRuns(words: seq<string>, tail: Re, t: string, i: nat, p: Printed, d: nat, e: nat, m: nat, c: nat,
                         s: nat)
    requires Orderly(words) && LowerText(p.month) in words && SingleSpaced(t) && DateStands(t, i, p, d, e, m, c, s)
    ensures Continues(MatchAt(Leading(OfTail(Cat(Group(2, AnyOf(words)), MarksThenYear(tail)))), t, i),
                      Run(Just(tail), t, s + 5, DateGroups(p)))
  {
    if Run(Just(tail), t, s + 5, DateGroups(p)).Some? {
      var found := Run(Just(tail), t, s + 5, DateGroups(p)).value;
      DatedRuns(words, tail, t, i, p.of.Some?, d, e, m, p.dot, c, p.comma, s, found.end, found.groups);
    }
  }

  // The date of a printed stamp stands at i, and its year ends at y.
  ghost predicate DateStandsUntil(t: string, i: nat, p: Printed, y: nat) {
    exists d: nat, e: nat, m: nat, c: nat, s: nat :: DateStands(t, i, p, d, e, m, c, s) && y == s + 5
  }

  lemma StandingStampRuns(words: seq<string>, t: string, i: nat, p: Printed, y: nat)
    requires Orderly(words) && LowerText(p.month) in words && SingleSpaced(t) && DateStandsUntil(t, i, p, y)
    requires y <= |t|
    ensures Continues(MatchAt(StampWith(words), t, i), Run(Just(CommaTail()), t, y, DateGroups(p)))
  {
    var d: nat, e: nat, m: nat, c: nat, s: nat :| DateStands(t, i, p, d, e, m, c, s) && y == s + 5;
    StandingDateRuns(words, CommaTail(), t, i, p, d, e, m, c, s);
  }

  lemma DateOfStampStands(t: string, i: nat, p: Printed, words: seq<string>, end: nat) returns (y: nat)
    requires WellPrinted(p, words) && LiesAt(t, i, TextOf(p)) && end == i + |TextOf(p)|
    ensures DateStandsUntil(t, i, p, y) && y <= |t| && end == y + |Ending(p)|
  {
    var d, e, m, c, s := StampStands(t, i, p, words, end);
    y := s + 5;
  }

  lemma EndingOfStampLies(t: string, i: nat, p: Printed, words: seq<string>, end: nat, y: nat)
    requires WellPrinted(p, words) && LiesAt(t, i, TextOf(p)) && end == i + |TextOf(p)| == y + |Ending(p)|
    ensures LiesAt(t, y, Ending(p))
  {
    var d, e, m, c, s := StampStands(t, i, p, words, end);
  }

  lemma DateOfStampRuns(words: seq<string>, t: string, i: nat, p: Printed, end: nat) returns (y: nat)
    requires Orderly(words) && WellPrinted(p, words) && SingleSpaced(t)
    requires LiesAt(t, i, TextOf(p)) && end == i + |TextOf(p)|
    ensures y <= |t| && end == y + |Ending(p)|
    ensures Continues(MatchAt(StampWith(words), t, i), Run(Just(CommaTail()), t, y, DateGroups(p)))
  {
    y := DateOfStampStands(t, i, p, words, end);
    StandingStampRuns(words, t, i, p, y);
  }

  lemma RestRuns(whole: Option<Found>, t: string, y: nat, p: Printed, end: nat)
    requires ClockOk(p.clock) && (p.clock.NoClock? ==> !p.yearComma) && SingleSpaced(t)
    requires LiesAt(t, y, Ending(p)) && end == y + |Ending(p)| && ClockEnds(p.clock, t, end)
    requires Continues(whole, Run(Just(CommaTail()), t, y, DateGroups(p)))
    ensures Takes(whole, end, ClockGroups(p.clock, DateGroups(p)))
  {
    EndingRuns(t, y, p, DateGroups(p), end);
  }

  // The expression matches a printed stamp where it stands, and captures exactly its pieces.
  lemma StampRuns(words: seq<string>, t: string, i: nat, p: Printed, end: nat)
    requires Orderly(words) && WellPrinted(p, words) && SingleSpaced(t)
    requires LiesAt(t, i, TextOf(p)) && end == i + |TextOf(p)| && ClockEnds(p.clock, t, end)
    ensures Takes(MatchAt(StampWith(words), t, i), end, ClockGroups(p.clock, DateGroups(p)))
  {
    var y := DateOfStampRuns(words, t, i, p, end);
    EndingOfStampLies(t, i, p, words, end, y);
    RestRuns(MatchAt(StampWith(words), t, i), t, y, p, end);
  }

  // ---- what the text before a stamp may be ----

  predicate DigitAt(t: string, i: nat) { i < |t| && D.IsDigit(t[i]) }

  // The words a stamp begins with, up to its first digit.
  predicate HeadAt(t: string, i: nat) {
    StandsAt(t, i, "current as ") && (DigitAt(t, i + 11) || (StandsAt(t, i + 11, "of ") && DigitAt(t, i + 14)))
  }

  lemma WordNeeded(w: string, tail: Re, t: string, i: nat, g: Groups)
    requires i <= |t| && Run(Just(Cat(Word(w), tail)), t, i, g).Some?
    ensures StandsAt(t, i, w) && Run(Just(tail), t, i + |w|, g).Some?
  {
    CatStep(Word(w), tail, Done, t, i, g);
    WordStep(w, Just(tail), t, i, g);
  }

  lemma SpaceNeeded(tail: Re, t: string, i: nat, g: Groups)
    requires i <= |t| && SingleSpaced(t) && Run(Just(Cat(Spaces(), tail)), t, i, g).Some?
    ensures i < |t| && t[i] == ' ' && Run(Just(tail), t, i + 1, g).Some?
  {
    CatStep(Spaces(), tail, Done, t, i, g);
    SpacesStep(Just(tail), t, i, g);
  }

  lemma DayNeedsADigit(tail: Re, t: string, i: nat, g: Groups)
    requires i <= |t| && Run(Just(DayTail(tail)), t, i, g).Some?
    ensures DigitAt(t, i)
  {
    var after := Cat(Spaces(), tail);
    CatStep(Group(1, DayDigits()), after, Done, t, i, g);
    GroupOpens(1, DayDigits(), Just(after), t, i, g);
    CatStep(One(DigitKind), Opt(One(DigitKind)), Push(Close(1, i), Just(after)), t, i, g);
  }

  lemma OfOrDigitNeeded(tail: Re, t: string, i: nat, g: Groups)
    requires i <= |t| && SingleSpaced(t) && Run(Just(OfTail(tail)), t, i, g).Some?
    ensures DigitAt(t, i) || (StandsAt(t, i, "of ") && DigitAt(t, i + 3))
  {
    var day := DayTail(tail);
    var words := Cat(Word("of"), Spaces());
    CatStep(Opt(words), day, Done, t, i, g);
    CatStep(Word("of"), Spaces(), Just(day), t, i, g);
    WordStep("of", Push(Want(Spaces()), Just(day)), t, i, g);
    if Run(Push(Want(words), Just(day)), t, i, g).Some? {
      SpacesStep(Just(day), t, i + 2, g);
      DayNeedsADigit(tail, t, i + 3, g);
      WordsJoin(t, i, "of", " ");
    } else {
      OptionalSkips(words, Just(day), t, i, g);
      DayNeedsADigit(tail, t, i, g);
    }
  }

  lemma WordsJoin(t: string, i: nat, a: string, b: string)
    requires StandsAt(t, i, a) && StandsAt(t, i + |a|, b)
    ensures StandsAt(t, i, a + b)
  {
    forall k | i <= k < i + |a + b| ensures Lower(t[k]) == (a + b)[k - i] {
    }
  }

  lemma SpaceStands(t: string, i: nat)
    requires i < |t| && t[i] == ' '
    ensures StandsAt(t, i, " ")
  {
  }

  // No stamp is read anywhere but at those words.
  lemma StampNeedsItsHead(words: seq<string>, t: string, i: nat)
    requires words != [] && SingleSpaced(t) && i <= |t| && MatchAt(StampWith(words), t, i).Some?
    ensures HeadAt(t, i)
  {
    var g, rest := NoGroups(), OfTail(MonthTail(words));
    WordNeeded("current", Cat(Spaces(), Cat(Word("as"), Cat(Spaces(), rest))), t, i, g);
    SpaceNeeded(Cat(Word("as"), Cat(Spaces(), rest)), t, i + 7, g);
    WordNeeded("as", Cat(Spaces(), rest), t, i + 8, g);
    SpaceNeeded(rest, t, i + 10, g);
    OfOrDigitNeeded(MonthTail(words), t, i + 11, g);
    SpaceStands(t, i + 7);
    SpaceStands(t, i + 10);
    WordsJoin(t, i, "current", " ");
    WordsJoin(t, i + 8, "as", " ");
    WordsJoin(t, i, "current ", "as ");
    assert "current" + " " == "current " && "as" + " " == "as " && "current " + "as " == "current as ";
  }

  // Text without a stamp's opening words holds no stamp.
  lemma NoHeadNoStamp(words: seq<string>, t: string)
    requires words != [] && SingleSpaced(t) && forall i :: 0 <= i < |t| ==> !HeadAt(t, i)
    ensures Search(StampWith(words), t).None?
  {
    forall i: nat | i <= |t| ensures MatchAt(StampWith(words), t, i).None? {
      if MatchAt(StampWith(words), t, i).Some? {
        StampNeedsItsHead(words, t, i);
      }
    }
    SearchIsLeftmost(StampWith(words), t, 0);
  }

  // ---- the parser undoes the printer ----

  lemma NothingFoundBefore(words: seq<string>, before: string, t: string)
    requires words != [] && (forall k :: 0 <= k < |words| ==> NoCu(words[k])) && Search(StampWith(words), before).None?
    requires before <= t && |before| + 1 < |t| && Lower(t[|before|]) == 'c' && Lower(t[|before| + 1]) == 'u'
    ensures forall i: nat :: i < |before| ==> MatchAt(StampWith(words), t, i).None?
  {
    SearchIsLeftmost(StampWith(words), before, 0);
    forall i: nat | i < |before| ensures MatchAt(StampWith(words), t, i).None? {
      if MatchAt(StampWith(words), t, i).Some? {
        SeamIsNotCrossed(words, t, before, i);
      }
    }
  }

  lemma LeftmostIsHere(re: Re, t: string, i: nat, end: nat, groups: Groups)
    requires i <= |t| && Takes(MatchAt(re, t, i), end, groups)
    requires forall j: nat :: j < i ==> MatchAt(re, t, j).None?
    ensures FoundAt(Search(re, t), i, end, groups)
  {
    SearchIsLeftmost(re, t, 0);
    assert Search(re, t).Some?;
    assert Search(re, t).value.0 == i;
  }

  // A search that starts its match at i, keeps these captures and reaches at least this far.
  ghost predicate FoundAt(hit: Option<(nat, Found)>, i: nat, end: nat, groups: Groups) {
    hit.Some? && hit.value.0 == i && Takes(Some(hit.value.1), end, groups)
  }

  lemma LeftmostStamp(words: seq<string>, before: string, t: string, end: nat, groups: Groups)
    requires words != [] && (forall k :: 0 <= k < |words| ==> NoCu(words[k])) && Search(StampWith(words), before).None?
    requires before <= t && |before| + 1 < |t| && Lower(t[|before|]) == 'c' && Lower(t[|before| + 1]) == 'u'
    requires Takes(MatchAt(StampWith(words), t, |before|), end, groups)
    ensures FoundAt(Search(StampWith(words), t), |before|, end, groups)
  {
    NothingFoundBefore(words, before, t);
    LeftmostIsHere(StampWith(words), t, |before|, end, groups);
  }

  lemma StampOpensWithCu(t: string, i: nat, p: Printed)
    requires LowerText(p.current) == "current" && LiesAt(t, i, TextOf(p))
    ensures i + 1 < |t| && Lower(t[i]) == 'c' && Lower(t[i + 1]) == 'u'
  {
    assert |p.current| == |LowerText(p.current)| == 7;
    LiesSplit(t, i, p.current, " " + (p.asWord + (" " + (OfText(p.of) + DateAndClock(p)))));
    LyingText(t, i, p.current);
    assert p.current[0] == t[i..i + 7][0] && p.current[1] == t[i..i + 7][1];
    assert Lower(p.current[0]) == LowerText(p.current)[0] && Lower(p.current[1]) == LowerText(p.current)[1];
  }

  // A stamp printed in a text up to `end`, after a part of it that holds none.
  ghost predicate PrintedUntil(before: string, t: string, p: Printed, end: nat) {
    && before <= t && LiesAt(t, |before|, TextOf(p)) && end == |before| + |TextOf(p)|
    && Search(StampExpression(), before).None? && ClockEnds(p.clock, t, end)
  }

  ghost predicate PrintedAfter(before: string, t: string, p: Printed) {
    exists end: nat :: PrintedUntil(before, t, p, end)
  }

  lemma LeftmostOfWords(words: seq<string>, before: string, t: string, p: Printed, end: nat)
    requires Orderly(words) && (forall k :: 0 <= k < |words| ==> NoCu(words[k])) && WellPrinted(p, words)
    requires SingleSpaced(t) && before <= t && Search(StampWith(words), before).None?
    requires LiesAt(t, |before|, TextOf(p)) && end == |before| + |TextOf(p)| && ClockEnds(p.clock, t, end)
    ensures FoundAt(Search(StampWith(words), t), |before|, end, ClockGroups(p.clock, DateGroups(p)))
  {
    StampRuns(words, t, |before|, p, end);
    StampOpensWithCu(t, |before|, p);
    LeftmostStamp(words, before, t, end, ClockGroups(p.clock, DateGroups(p)));
  }

  lemma LeftmostIsThePrinted(before: string, t: string, p: Printed, end: nat)
    requires WellPrinted(p, MonthTokens()) && SingleSpaced(t) && PrintedUntil(before, t, p, end)
    ensures FoundAt(Search(StampExpression(), t), |before|, end, ClockGroups(p.clock, DateGroups(p)))
  {
    MonthTokensOrdered();
    LeftmostOfWords(MonthTokens(), before, t, p, end);
  }

  // The parser reads a printed stamp back as exactly the moment it names, and as nothing when it
  // names none, after any text that holds no stamp itself and before any that cannot extend its clock.
  // The wording kept for display begins with the stamp as printed.
  lemma ParserUndoesPrinter(before: string, t: string, p: Printed) returns (wording: string)
    requires WellPrinted(p, MonthTokens()) && SingleSpaced(t) && PrintedAfter(before, t, p)
    ensures ParseText(t) == Named(p, wording) && TextOf(p) <= wording
  {
    var end: nat :| PrintedUntil(before, t, p, end);
    LeftmostIsThePrinted(before, t, p, end);
    MatchEndsInText(t);
    var found := Search(StampExpression(), t).value.1.end;
    wording := Strip(Slice(t, |before|, found));
    GroupsAreRead(p, wording);
    EdgesOfStamp(p);
    WordingBeginsWithStamp(t, |before|, TextOf(p), found);
  }

  lemma WordingBeginsWithStamp(t: string, i: nat, stamp: string, end: nat)
    requires stamp != "" && !IsSpace(stamp[0]) && !IsSpace(stamp[|stamp| - 1])
    requires LiesAt(t, i, stamp) && i + |stamp| <= end <= |t|
    ensures stamp <= Strip(Slice(t, i, end))
  {
    LyingText(t, i, stamp);
    var extra := t[i + |stamp|..end];
    assert t[i..end] == t[i..i + |stamp|] + extra;
    StripKeepsTheFront(stamp, extra);
  }

  // Where nothing that matters for the end of a text comes before its last piece.
  lemma EndsAs(a: string, b: string)
    requires b != "" && !IsSpace(b[|b| - 1])
    ensures a + b != "" && !IsSpace((a + b)[|a + b| - 1])
  {
  }

  lemma ClockEnding(c: Clock)
    requires ClockOk(c) && !c.NoClock?
    ensures ClockText(c) != "" && !IsSpace(ClockText(c)[|ClockText(c)| - 1])
  {
    match c
    case AtClock(spaced, at, hh, mm) =>
      EndsAs(hh, mm);
      EndsAs(" ", hh + mm);
      EndsAs(at, " " + (hh + mm));
      EndsAs(Mark(spaced, ' '), ClockBody(c));
    case LocalClock(spaced, hh, mm, gap, l) =>
      EndsAs(Mark(gap, ' '), [l]);
      EndsAs(mm, Mark(gap, ' ') + [l]);
      EndsAs(hh, mm + (Mark(gap, ' ') + [l]));
      EndsAs(Mark(spaced, ' '), ClockBody(c));
  }

  lemma MarksAndYearEnding(p: Printed)
    requires |p.year| == 4 && D.AllDigits(p.year)
    ensures MarksAndYear(p) != "" && !IsSpace(MarksAndYear(p)[|MarksAndYear(p)| - 1])
  {
    EndsAs(" ", p.year);
    EndsAs(Mark(p.comma, ','), " " + p.year);
    EndsAs(Mark(p.dot, '.'), Mark(p.comma, ',') + (" " + p.year));
  }

  lemma MonthPieceEnding(p: Printed)
    requires WellPrinted(p, MonthTokens())
    ensures MonthPiece(p) != "" && !IsSpace(MonthPiece(p)[|MonthPiece(p)| - 1])
  {
    var ending := Mark(p.yearComma, ',') + ClockText(p.clock);
    if p.clock.NoClock? {
      MarksAndYearEnding(p);
      assert MarksAndYear(p) + ending == MarksAndYear(p);
    } else {
      ClockEnding(p.clock);
      EndsAs(Mark(p.yearComma, ','), ClockText(p.clock));
      EndsAs(MarksAndYear(p), ending);
    }
    EndsAs(p.month, MarksAndYear(p) + ending);
  }

  lemma StampStart(p: Printed)
    requires LowerText(p.current) == "current"
    ensures TextOf(p) != "" && !IsSpace(TextOf(p)[0])
  {
    assert |p.current| == |LowerText(p.current)| == 7;
    assert TextOf(p)[0] == p.current[0] && Lower(p.current[0]) == LowerText(p.current)[0];
  }

  lemma EdgesOfStamp(p: Printed)
    requires WellPrinted(p, MonthTokens())
    ensures TextOf(p) != "" && !IsSpace(TextOf(p)[0]) && !IsSpace(TextOf(p)[|TextOf(p)| - 1])
  {
    StampStart(p);
    MonthPieceEnding(p);
    DateEnding(p.day, MonthPiece(p));
    LeadEnding(p, DateAndClock(p));
  }

  lemma DateEnding(day: string, rest: string)
    requires rest != "" && !IsSpace(rest[|rest| - 1])
    ensures var t := day + (" " + rest); t != "" && !IsSpace(t[|t| - 1])
  {
    EndsAs(" ", rest);
    EndsAs(day, " " + rest);
  }

  lemma LeadEnding(p: Printed, date: string)
    requires date != "" && !IsSpace(date[|date| - 1])
    ensures var t := p.current + (" " + (p.asWord + (" " + (OfText(p.of) + date))));
            t != "" && !IsSpace(t[|t| - 1])
  {
    EndsAs(OfText(p.of), date);
    EndsAs(" ", OfText(p.of) + date);
    EndsAs(p.asWord, " " + (OfText(p.of) + date));
    EndsAs(" ", p.asWord + (" " + (OfText(p.of) + date)));
    EndsAs(p.current, " " + (p.asWord + (" " + (OfText(p.of) + date))));
  }

  lemma {:induction false} StripKeepsTheFront(s: string, extra: string)
    requires s != "" && !IsSpace(s[0]) && !IsSpace(s[|s| - 1])
    ensures s <= Strip(s + extra)
    decreases |extra|
  {
    if extra == "" {
      assert s + extra == s;
    } else if IsSpace(extra[|extra| - 1]) {
      assert (s + extra)[..|s + extra| - 1] == s + extra[..|extra| - 1];
      StripKeepsTheFront(s, extra[..|extra| - 1]);
    }
  }

  lemma MatchEndsInText(t: string)
    requires Search(StampExpression(), t).Some?
    ensures Search(StampExpression(), t).value.0 <= Search(StampExpression(), t).value.1.end <= |t|
  {
    SearchIsLeftmost(StampExpression(), t, 0);
    MatchIsDescription(StampExpression(), t, Search(StampExpression(), t).value.0);
  }

  ghost predicate Numeral(s: string) { s != "" && D.AllDigits(s) }

  // The clock these groups hold.
  ghost predicate ClockIn(groups: Groups, hh: string, mm: string) {
    && Numeral(hh) && Numeral(mm)
    && (if 4 in groups then groups[4] == hh else GroupOr(groups, 6, "0") == hh)
    && (if 4 in groups then GroupOr(groups, 5, "0") == mm else GroupOr(groups, 7, "0") == mm)
  }

  lemma PiecesAreRead(groups: Groups, hh: string, mm: string, text: string)
    requires 1 in groups && 2 in groups && 3 in groups && Numeral(groups[1]) && Numeral(groups[3])
    requires ClockIn(groups, hh, mm)
    ensures ReadGroups(groups, text) ==
              Moment(D.Value(groups[3]), MonthNamed(LowerText(groups[2])), D.Value(groups[1]),
                     D.Value(hh), D.Value(mm), 4 in groups || 6 in groups, text)
  {
    MonthIsNamed(LowerText(groups[2]));
  }

  lemma GroupsAreRead(p: Printed, text: string)
    requires WellPrinted(p, MonthTokens())
    ensures ReadGroups(ClockGroups(p.clock, DateGroups(p)), text) == Named(p, text)
  {
    var groups := ClockGroups(p.clock, DateGroups(p));
    assert groups[1] == p.day && groups[2] == p.month && groups[3] == p.year;
    match p.clock
    case NoClock =>
      assert "0"[..0] == "" && D.Value("0") == 0;
      PiecesAreRead(groups, "0", "0", text);
    case AtClock(_, _, hh, mm) => PiecesAreRead(groups, hh, mm, text);
    case LocalClock(_, hh, mm, _, _) => PiecesAreRead(groups, hh, mm, text);
  }

  // ---- every minute of the years the parser accepts ----

  datatype Shape = WithAt(spaced: bool) | WithL(spaced: bool, gap: bool) | DateOnly

  function ClockOf(hh: string, mm: string, shape: Shape): Clock {
    match shape
    case WithAt(spaced) => AtClock(spaced, "at", hh, mm)
    case WithL(spaced, gap) => LocalClock(spaced, hh, mm, gap, 'L')
    case DateOnly => NoClock
  }

  // A moment printed in one of the three shapes, with or without their optional blanks, and with any
  // spelling of its month's word.
  function PrintMoment(date: Date, hour: nat, minute: nat, month: string, shape: Shape): Printed
    requires date.year >= 0 && date.day >= 0
  {
    var clock := ClockOf(D.FixedWidth(hour, 2), D.FixedWidth(minute, 2), shape);
    Printed("Current", "as", if shape.WithAt? then Some("of") else None, D.FixedWidth(date.day, 2), month,
            false, false, D.FixedWidth(date.year, 4), false, clock)
  }

  lemma StampWordsInLowerCase()
    ensures LowerText("Current") == "current" && LowerText("as") == "as" && LowerText("of") == "of"
    ensures LowerText("at") == "at" && Lower('L') == 'l'
  {
  }

  lemma NumbersReadBack(date: Date, hour: nat, minute: nat)
    requires IsDate(date.year, date.month, date.day) && 0 <= date.year <= 9999 && hour <= 23 && minute <= 59
    ensures D.Value(D.FixedWidth(date.year, 4)) == date.year && D.Value(D.FixedWidth(date.day, 2)) == date.day
    ensures D.Value(D.FixedWidth(hour, 2)) == hour && D.Value(D.FixedWidth(minute, 2)) == minute
  {
    assert D.Pow10(1) == 10 && D.Pow10(2) == 100 && D.Pow10(3) == 1000 && D.Pow10(4) == 10000;
    D.FixedWidthReads(date.year, 4);
    D.FixedWidthReads(date.day, 2);
    D.FixedWidthReads(hour, 2);
    D.FixedWidthReads(minute, 2);
  }

  lemma MomentIsWellPrinted(date: Date, hour: nat, minute: nat, month: string, shape: Shape, wording: string)
    requires IsDate(date.year, date.month, date.day) && 2020 <= date.year <= 2100 && hour <= 23 && minute <= 59
    requires WordFor(LowerText(month), date.month)
    ensures WellPrinted(PrintMoment(date, hour, minute, month, shape), MonthTokens())
    ensures Named(PrintMoment(date, hour, minute, month, shape), wording) ==
              Some(PageTime(date, if shape.DateOnly? then 0 else hour, if shape.DateOnly? then 0 else minute,
                            !shape.DateOnly?, wording))
  {
    NumbersReadBack(date, hour, minute);
    MonthWords(LowerText(month), date.month);
    MonthIsNamed(LowerText(month));
    StampWordsInLowerCase();
  }

  // What the parser makes of a document before it searches: tags become blanks, entities are decoded,
  // and every run of blanks becomes one.
  function Normalised(document: string, unescape: string -> string): string {
    CollapseSpaces(unescape(StripTags(document)))
  }

  // For every real date from 2020 to 2100, every minute of it and each shape, any document whose
  // normalised text shows the printed stamp is read back as exactly that moment.
  lemma EveryMinuteReadsBack(date: Date, hour: nat, minute: nat, month: string, shape: Shape, before: string,
                             document: string, unescape: string -> string) returns (wording: string)
    requires IsDate(date.year, date.month, date.day) && 2020 <= date.year <= 2100 && hour <= 23 && minute <= 59
    requires WordFor(LowerText(month), date.month)
    requires PrintedAfter(before, Normalised(document, unescape), PrintMoment(date, hour, minute, month, shape))
    ensures ParsePageTime(document, unescape)
         == Some(PageTime(date, if shape.DateOnly? then 0 else hour, if shape.DateOnly? then 0 else minute,
                          !shape.DateOnly?, wording))
  {
    var p := PrintMoment(date, hour, minute, month, shape);
    MomentIsWellPrinted(date, hour, minute, month, shape, "");
    CollapsedIsSingleSpaced(unescape(StripTags(document)));
    wording := ParserUndoesPrinter(before, Normalised(document, unescape), p);
    MomentIsWellPrinted(date, hour, minute, month, shape, wording);
  }
}
