// A printed stamp on its own: every real minute is read back, with nothing assumed about a page.
module PageTimeAlone {
  import opened Wrappers
  import opened Calendar
  import D = Digits
  import opened Regex
  import opened PageTime
  import opened MonthTable
  import opened PageTimeRoundTrip

  // Text that normalisation leaves alone.
  ghost predicate Tidy(t: string) { t != "" && SingleSpaced(t) && !IsSpace(t[0]) && '<' !in t && '&' !in t }

  predicate PlainWord(w: string) { w != "" && forall i :: 0 <= i < |w| ==> IsWord(w[i]) }

  lemma WordsHaveNoMarks(w: string)
    requires PlainWord(w)
    ensures forall i :: 0 <= i < |w| ==> !IsSpace(w[i]) && w[i] != '<' && w[i] != '&'
  {
    forall i | 0 <= i < |w| ensures !IsSpace(w[i]) && w[i] != '<' && w[i] != '&' {
      assert IsWord(w[i]);
    }
  }

  // A word before tidy text, with a blank between them or without.
  lemma JoinedIsTidy(w: string, spaced: bool, rest: string)
    requires PlainWord(w) && Tidy(rest)
    ensures Tidy(w + (Mark(spaced, ' ') + rest)) && Last(w + (Mark(spaced, ' ') + rest)) == Last(rest)
  {
    var t, from := w + (Mark(spaced, ' ') + rest), |w| + |Mark(spaced, ' ')|;
    WordsHaveNoMarks(w);
    forall i | 0 <= i < |t| ensures t[i] != '<' && t[i] != '&' {
      assert i < |w| || i < from || t[i] == rest[i - from];
    }
    forall i | 0 <= i < |t| && IsSpace(t[i]) ensures t[i] == ' ' && (i + 1 < |t| ==> !IsSpace(t[i + 1])) {
      if i >= from {
        assert t[i] == rest[i - from];
        assert i + 1 < |t| ==> t[i + 1] == rest[i + 1 - from];
      } else {
        assert i == |w| && t[i + 1] == rest[0];
      }
    }
  }

  function Last(t: string): char
    requires t != ""
  {
    t[|t| - 1]
  }

  lemma LettersAreAWord(s: string, lower: string)
    requires LowerText(s) == lower && lower != "" && forall i :: 0 <= i < |lower| ==> 'a' <= lower[i] <= 'z'
    ensures PlainWord(s)
  {
    forall i | 0 <= i < |s| ensures IsWord(s[i]) {
      assert LowerText(s)[i] == Lower(s[i]) == lower[i];
    }
  }

  // The year and what follows it, in the three shapes.
  function YearAndClock(p: Printed): string { p.year + ClockText(p.clock) }

  lemma WordIsTidy(w: string)
    requires PlainWord(w)
    ensures Tidy(w) && IsWord(Last(w))
  {
    WordsHaveNoMarks(w);
  }

  lemma DigitsAreAWord(s: string)
    requires s != "" && D.AllDigits(s)
    ensures PlainWord(s)
  {
  }

  lemma ClockIsTidy(hh: string, mm: string)
    requires TwoDigits(hh) && TwoDigits(mm)
    ensures Tidy("at" + (" " + (hh + mm))) && IsWord(Last("at" + (" " + (hh + mm))))
  {
    DigitsAreAWord(hh + mm);
    WordIsTidy(hh + mm);
    assert PlainWord("at") && Mark(true, ' ') == " ";
    JoinedIsTidy("at", true, hh + mm);
  }

  lemma LocalIsTidy(hh: string, mm: string, gap: bool)
    requires TwoDigits(hh) && TwoDigits(mm)
    ensures var t := hh + (mm + (Mark(gap, ' ') + "L")); Tidy(t) && IsWord(Last(t))
  {
    DigitsAreAWord(hh + mm);
    WordIsTidy("L");
    JoinedIsTidy(hh + mm, gap, "L");
    assert hh + (mm + (Mark(gap, ' ') + "L")) == hh + mm + (Mark(gap, ' ') + "L");
  }

  lemma YearIsTidy(p: Printed, hh: string, mm: string, shape: Shape)
    requires PlainWord(p.year) && TwoDigits(hh) && TwoDigits(mm) && p.clock == ClockOf(hh, mm, shape)
    ensures Tidy(YearAndClock(p)) && IsWord(Last(YearAndClock(p)))
  {
    match shape
    case DateOnly =>
      WordIsTidy(p.year);
      assert YearAndClock(p) == p.year;
    case WithAt(spaced) =>
      ClockIsTidy(hh, mm);
      JoinedIsTidy(p.year, spaced, ClockBody(p.clock));
    case WithL(spaced, gap) =>
      LocalIsTidy(hh, mm, gap);
      JoinedIsTidy(p.year, spaced, ClockBody(p.clock));
  }

  predicate PlainParts(p: Printed) {
    && PlainWord(p.current) && PlainWord(p.asWord) && PlainWord(p.day) && PlainWord(p.month)
    && (p.of.Some? ==> PlainWord(p.of.value)) && !p.dot && !p.comma && !p.yearComma
  }

  lemma SpacedIsTidy(w: string, rest: string)
    requires PlainWord(w) && Tidy(rest)
    ensures Tidy(w + (" " + rest)) && Last(w + (" " + rest)) == Last(rest)
  {
    assert Mark(true, ' ') == " ";
    JoinedIsTidy(w, true, rest);
  }

  lemma MarksArePlain(year: string)
    ensures MarksText(false, false, year) == " " + year
  {
  }

  lemma NoMarkBefore(text: string)
    ensures Mark(false, ',') + text == text
  {
  }

  lemma Reassociated(month: string, year: string, clock: string)
    ensures month + ((" " + year) + clock) == month + (" " + (year + clock))
  {
  }

  lemma MonthPieceIsPlain(p: Printed)
    requires PlainParts(p)
    ensures MonthPiece(p) == p.month + (" " + YearAndClock(p))
  {
    MarksArePlain(p.year);
    NoMarkBefore(ClockText(p.clock));
    Reassociated(p.month, p.year, ClockText(p.clock));
  }

  lemma DateIsTidy(p: Printed)
    requires PlainParts(p) && Tidy(YearAndClock(p))
    ensures Tidy(DateAndClock(p)) && Last(DateAndClock(p)) == Last(YearAndClock(p))
  {
    MonthPieceIsPlain(p);
    SpacedIsTidy(p.month, YearAndClock(p));
    SpacedIsTidy(p.day, MonthPiece(p));
  }

  lemma OfIsTidy(of: Option<string>, rest: string)
    requires (of.Some? ==> PlainWord(of.value)) && Tidy(rest)
    ensures Tidy(OfText(of) + rest) && Last(OfText(of) + rest) == Last(rest)
  {
    if of.Some? {
      assert OfText(of) + rest == of.value + (" " + rest);
      SpacedIsTidy(of.value, rest);
    } else {
      assert OfText(of) + rest == rest;
    }
  }

  lemma LeadIsTidy(current: string, asWord: string, rest: string)
    requires PlainWord(current) && PlainWord(asWord) && Tidy(rest)
    ensures var t := current + (" " + (asWord + (" " + rest))); Tidy(t) && Last(t) == Last(rest)
  {
    SpacedIsTidy(asWord, rest);
    SpacedIsTidy(current, asWord + (" " + rest));
  }

  lemma StampIsTidy(p: Printed)
    requires PlainParts(p) && Tidy(YearAndClock(p))
    ensures Tidy(TextOf(p)) && Last(TextOf(p)) == Last(YearAndClock(p))
  {
    DateIsTidy(p);
    OfIsTidy(p.of, DateAndClock(p));
    LeadIsTidy(p.current, p.asWord, OfText(p.of) + DateAndClock(p));
  }

  lemma MonthNameIsLetters(m: int)
    requires 1 <= m <= 12
    ensures |MonthName(m)| >= 3 && forall i :: 0 <= i < |MonthName(m)| ==> 'a' <= MonthName(m)[i] <= 'z'
  {
  }

  lemma WordsArePlain()
    ensures PlainWord("Current") && PlainWord("as") && PlainWord("of")
  {
  }

  lemma PrintedIsTidy(date: Date, hour: nat, minute: nat, month: string, shape: Shape)
    requires IsDate(date.year, date.month, date.day) && 0 <= date.year <= 9999 && hour <= 23 && minute <= 59
    requires WordFor(LowerText(month), date.month)
    ensures var t := TextOf(PrintMoment(date, hour, minute, month, shape)); Tidy(t) && IsWord(Last(t))
  {
    var p := PrintMoment(date, hour, minute, month, shape);
    MonthNameIsLetters(date.month);
    LettersAreAWord(month, LowerText(month));
    DigitsAreAWord(p.day);
    DigitsAreAWord(p.year);
    YearIsTidy(p, D.FixedWidth(hour, 2), D.FixedWidth(minute, 2), shape);
    WordsArePlain();
    StampIsTidy(p);
  }

  lemma ClockEndsWithTheText(c: Clock, t: string)
    requires t != "" && IsWord(Last(t))
    ensures ClockEnds(c, t, |t|)
  {
  }

  lemma TidyIsNormalised(t: string, unescape: string -> string)
    requires Tidy(t) && (forall u: string :: '&' !in u ==> unescape(u) == u)
    ensures Normalised(t, unescape) == t
  {
    NoTagsToStrip(t);
    assert unescape(t) == t;
    CollapsedIsSingleSpaced(t);
  }

  lemma StandsAlone(t: string)
    ensures LiesAt(t, 0, t) && "" <= t
  {
    LyingText(t, 0, t);
  }

  lemma PrintedAlone(p: Printed, end: nat)
    requires Tidy(TextOf(p)) && IsWord(Last(TextOf(p))) && end == |TextOf(p)|
    ensures PrintedUntil("", TextOf(p), p, end)
  {
    ClockEndsWithTheText(p.clock, TextOf(p));
    StandsAlone(TextOf(p));
    NoHeadNoStamp(MonthTokens(), "");
  }

  // For every real date from 2020 to 2100, every minute of it, each shape and each spelling of the
  // month's word, the printed stamp alone is read back as exactly that moment.
  lemma EveryStampReadsBack(date: Date, hour: nat, minute: nat, month: string, shape: Shape, unescape: string -> string)
    returns (wording: string)
    requires IsDate(date.year, date.month, date.day) && 2020 <= date.year <= 2100 && hour <= 23 && minute <= 59
    requires WordFor(LowerText(month), date.month)
    requires forall t: string :: '&' !in t ==> unescape(t) == t
    ensures ParsePageTime(TextOf(PrintMoment(date, hour, minute, month, shape)), unescape)
         == Some(PageTime(date, if shape.DateOnly? then 0 else hour, if shape.DateOnly? then 0 else minute,
                          !shape.DateOnly?, wording))
  {
    var p := PrintMoment(date, hour, minute, month, shape);
    PrintedIsTidy(date, hour, minute, month, shape);
    TidyIsNormalised(TextOf(p), unescape);
    PrintedAlone(p, |TextOf(p)|);
    wording := EveryMinuteReadsBack(date, hour, minute, month, shape, "", TextOf(p), unescape);
  }

  // ---- markup around a stamp ----

  lemma NormalisedPart(head: string, stamp: string, tail: string)
    requires Tidy(stamp) && IsWord(Last(stamp)) && TagsClose(head)
    ensures StripTags(head + (stamp + tail)) == StripTags(head) + (stamp + StripTags(tail))
  {
    StripTagsConcat(head, stamp + tail);
    NoTagsToStrip(stamp);
    StripTagsConcat(stamp, tail);
  }

  lemma CollapsedPart(before: string, stamp: string, after: string)
    requires Tidy(stamp) && IsWord(Last(stamp))
    ensures CollapseSpaces(before + (stamp + after)) == CollapseSpaces(before) + (stamp + CollapseSpaces(after))
  {
    CollapseConcat(before, stamp + after);
    CollapseConcat(stamp, after);
    CollapsedIsSingleSpaced(stamp);
  }

  lemma LiesInTheMiddle(before: string, stamp: string, after: string)
    ensures before <= before + (stamp + after) && LiesAt(before + (stamp + after), |before|, stamp)
  {
    LyingText(before + (stamp + after), |before|, stamp);
  }

  // Decoding leaves this text alone.
  predicate Decoded(text: string, unescape: string -> string) { unescape(text) == text }

  // Where the stamp lies once the page is normalised.
  lemma StampIsShown(head: string, stamp: string, tail: string, unescape: string -> string)
    requires Tidy(stamp) && IsWord(Last(stamp)) && TagsClose(head)
    requires Decoded(StripTags(head + (stamp + tail)), unescape)
    ensures var before, t := CollapseSpaces(StripTags(head)), Normalised(head + (stamp + tail), unescape);
            before <= t && LiesAt(t, |before|, stamp)
  {
    NormalisedPart(head, stamp, tail);
    CollapsedPart(StripTags(head), stamp, StripTags(tail));
    LiesInTheMiddle(CollapseSpaces(StripTags(head)), stamp, CollapseSpaces(StripTags(tail)));
  }

  // A document that carries the stamp in its markup: what stands before it closes its tags and, once
  // normalised, holds no stamp; nothing after it extends its clock; there are no entities to decode.
  ghost predicate Carries(document: string, head: string, p: Printed, tail: string, unescape: string -> string,
                          end: nat)
  {
    var before := CollapseSpaces(StripTags(head));
    && document == head + (TextOf(p) + tail) && TagsClose(head) && Search(StampExpression(), before).None?
    && Decoded(StripTags(document), unescape)
    && end == |before| + |TextOf(p)| && ClockEnds(p.clock, Normalised(document, unescape), end)
  }

  lemma CarriedIsPrinted(document: string, head: string, p: Printed, tail: string, unescape: string -> string,
                         end: nat)
    requires Tidy(TextOf(p)) && IsWord(Last(TextOf(p))) && Carries(document, head, p, tail, unescape, end)
    ensures PrintedAfter(CollapseSpaces(StripTags(head)), Normalised(document, unescape), p)
  {
    StampIsShown(head, TextOf(p), tail, unescape);
    assert PrintedUntil(CollapseSpaces(StripTags(head)), Normalised(document, unescape), p, end);
  }

  // The same inside any markup.
  lemma EveryMarkedUpStampReadsBack(date: Date, hour: nat, minute: nat, month: string, shape: Shape, document: string,
                                    head: string, tail: string, end: nat, unescape: string -> string)
    returns (wording: string)
    requires IsDate(date.year, date.month, date.day) && 2020 <= date.year <= 2100 && hour <= 23 && minute <= 59
    requires WordFor(LowerText(month), date.month)
    requires Carries(document, head, PrintMoment(date, hour, minute, month, shape), tail, unescape, end)
    ensures ParsePageTime(document, unescape)
         == Some(PageTime(date, if shape.DateOnly? then 0 else hour, if shape.DateOnly? then 0 else minute,
                          !shape.DateOnly?, wording))
  {
    PrintedIsTidy(date, hour, minute, month, shape);
    CarriedIsPrinted(document, head, PrintMoment(date, hour, minute, month, shape), tail, unescape, end);
    var before := CollapseSpaces(StripTags(head));
    wording := EveryMinuteReadsBack(date, hour, minute, month, shape, before, document, unescape);
  }
}
