// The terminal pages' own "current as of" stamp
// (apps/api/paxpivot/application/parsers/amc_page_time.py).
module PageTime {
  import opened Wrappers
  import opened Calendar
  import D = Digits
  import opened Regex
  import opened RegexFacts

  const YEAR_MIN: nat := 2020
  const YEAR_MAX: nat := 2100

  // ---- the month table, in the order the expression tries it: longest first ----

  const MONTHS: seq<(string, int)> := [
    ("september", 9), ("february", 2), ("november", 11), ("december", 12), ("january", 1), ("october", 10),
    ("august", 8), ("march", 3), ("april", 4), ("june", 6), ("july", 7), ("sept", 9),
    ("may", 5), ("jan", 1), ("feb", 2), ("mar", 3), ("apr", 4), ("jun", 6),
    ("jul", 7), ("aug", 8), ("sep", 9), ("oct", 10), ("nov", 11), ("dec", 12)]

  function MonthTokens(): (r: seq<string>)
    ensures |r| == 24
  {
    seq(24, i requires 0 <= i < 24 => MONTHS[i].0)
  }

  function MonthIn(table: seq<(string, int)>, token: string): Option<int> {
    if table == [] then None else if table[0].0 == token then Some(table[0].1) else MonthIn(table[1..], token)
  }

  function LowerText(s: string): string { seq(|s|, i requires 0 <= i < |s| => Lower(s[i])) }

  // ---- the expression ----

  function AtPart(): Re {
    Cat(Word("at"), Cat(Spaces(), Cat(Group(4, Digits(2)), Cat(Group(5, Digits(2)),
      Cat(Star(SpaceKind), Opt(Lit('l')))))))
  }
  function LocalPart(): Re {
    Cat(Group(6, Digits(2)), Cat(Group(7, Digits(2)), Cat(Star(SpaceKind), Lit('l'))))
  }
  function ClockPart(): Re { Cat(Star(SpaceKind), Alt(AtPart(), LocalPart())) }
  function ClockTail(): Re { Cat(Opt(ClockPart()), WordBoundary) }
  function CommaTail(): Re { Cat(Opt(Lit(',')), ClockTail()) }
  function YearTail(): Re { Cat(Group(3, Digits(4)), CommaTail()) }
  function MarksTail(): Re { Cat(Opt(Lit('.')), Cat(Opt(Lit(',')), Cat(Spaces(), YearTail()))) }
  function MonthTail(words: seq<string>): Re
    requires words != []
  {
    Cat(Group(2, AnyOf(words)), MarksTail())
  }
  function DayDigits(): Re { Cat(One(DigitKind), Opt(One(DigitKind))) }
  function DayTail(monthTail: Re): Re { Cat(Group(1, DayDigits()), Cat(Spaces(), monthTail)) }
  function OfTail(monthTail: Re): Re { Cat(Opt(Cat(Word("of"), Spaces())), DayTail(monthTail)) }
  function Leading(rest: Re): Re { Cat(Word("current"), Cat(Spaces(), Cat(Word("as"), Cat(Spaces(), rest)))) }

  // The stamp with these month words, and the one with the table's.
  function StampWith(words: seq<string>): Re
    requires words != []
  {
    Leading(OfTail(MonthTail(words)))
  }
  function StampExpression(): Re { StampWith(MonthTokens()) }

  // ---- the same expression as one sequence of parts ----

  function LeadParts(): seq<Re> {
    [Word("current")] + ([Spaces()] + ([Word("as")] + ([Spaces()] + ([Opt(Cat(Word("of"), Spaces()))]
      + ([Group(1, DayDigits())] + ([Spaces()] + []))))))
  }

  function MarkParts(): seq<Re> {
    [Opt(Lit('.'))] + ([Opt(Lit(','))] + ([Spaces()] + ([Group(3, Digits(4))] + [])))
  }

  lemma LeadIsSpine(tail: Re)
    ensures Spine(LeadParts(), tail) == Leading(OfTail(tail))
  {
    var day := [Group(1, DayDigits())] + ([Spaces()] + []);
    var of := [Opt(Cat(Word("of"), Spaces()))] + day;
    SpineStep(Spaces(), [], tail);
    SpineStep(Group(1, DayDigits()), [Spaces()] + [], tail);
    SpineStep(Opt(Cat(Word("of"), Spaces())), day, tail);
    SpineStep(Spaces(), of, tail);
    SpineStep(Word("as"), [Spaces()] + of, tail);
    SpineStep(Spaces(), [Word("as")] + ([Spaces()] + of), tail);
    SpineStep(Word("current"), [Spaces()] + ([Word("as")] + ([Spaces()] + of)), tail);
  }

  lemma StampIsSpine(words: seq<string>)
    requires words != []
    ensures StampWith(words) == Spine(LeadParts(), Spine([Group(2, AnyOf(words))], Spine(MarkParts(), CommaTail())))
  {
    assert [Group(2, AnyOf(words))][1..] == [];
    LeadIsSpine(MonthTail(words));
  }

  // ---- reading ----

  datatype PageTime = PageTime(date: Date, hour: nat, minute: nat, hasTime: bool, text: string)

  // `int(text)`; None is its ValueError.
  function IntOf(s: string): Option<nat> { if s != "" && D.AllDigits(s) then Some(D.Value(s)) else None }

  function GroupOr(groups: Groups, n: nat, default: string): string { if n in groups then groups[n] else default }

  // The captured groups as a calendar moment, or None when they name none.
  function ReadGroups(groups: Groups, text: string): Option<PageTime> {
    var timed := 4 in groups || 6 in groups;
    var hourText := if 4 in groups then groups[4] else GroupOr(groups, 6, "0");
    var minuteText := if 4 in groups then GroupOr(groups, 5, "0") else GroupOr(groups, 7, "0");
    var year, month := IntOf(GroupOr(groups, 3, "")), MonthIn(MONTHS, LowerText(GroupOr(groups, 2, "")));
    var day, hour, minute := IntOf(GroupOr(groups, 1, "")), IntOf(hourText), IntOf(minuteText);
    if year.None? || month.None? || day.None? || hour.None? || minute.None? then None
    else if !(YEAR_MIN <= year.value <= YEAR_MAX) then None
    else if !IsDate(year.value, month.value, day.value) || hour.value > 23 || minute.value > 59 then None
    else Some(PageTime(Date(year.value, month.value, day.value), hour.value, minute.value, timed, text))
  }

  // `text.strip()`
  function Strip(s: string): string
    decreases |s|
  {
    if s != "" && IsSpace(s[0]) then Strip(s[1..])
    else if s != "" && IsSpace(s[|s| - 1]) then Strip(s[..|s| - 1])
    else s
  }

  // The first stamp decides alone.
  function ParseText(text: string): Option<PageTime> {
    match Search(StampExpression(), text)
    case None => None
    case Some(hit) => ReadGroups(hit.1.groups, Strip(Slice(text, hit.0, hit.1.end)))
  }

  // `re.sub("<[^>]+>", " ", document)`
  function StripTags(s: string): string
    decreases |s|
  {
    if s == "" then ""
    else
      var close := FirstClose(s[1..]);
      if s[0] == '<' && close.Some? && close.value >= 1 then " " + StripTags(s[close.value + 2..])
      else [s[0]] + StripTags(s[1..])
  }

  function FirstClose(s: string): (r: Option<nat>)
    ensures r.Some? ==> r.value < |s| && s[r.value] == '>'
    ensures r.None? <==> '>' !in s
  {
    if s == "" then None
    else if s[0] == '>' then Some(0)
    else match FirstClose(s[1..]) case None => None case Some(k) => Some(k + 1)
  }

  // `re.sub("\s+", " ", text)`
  function CollapseSpaces(s: string): string {
    if s == "" then ""
    else if IsSpace(s[0]) then
      if |s| > 1 && IsSpace(s[1]) then CollapseSpaces(s[1..]) else " " + CollapseSpaces(s[1..])
    else [s[0]] + CollapseSpaces(s[1..])
  }

  // Entity decoding is a library function.
  function ParsePageTime(document: string, unescape: string -> string): Option<PageTime> {
    ParseText(CollapseSpaces(unescape(StripTags(document))))
  }

  // ---- what normalised text looks like ----

  ghost predicate SingleSpaced(t: string) {
    forall i :: 0 <= i < |t| && IsSpace(t[i]) ==> t[i] == ' ' && (i + 1 < |t| ==> !IsSpace(t[i + 1]))
  }

  lemma {:induction false} CollapsedIsSingleSpaced(s: string)
    ensures SingleSpaced(CollapseSpaces(s))
    ensures s != "" ==> CollapseSpaces(s) != "" && (IsSpace(CollapseSpaces(s)[0]) <==> IsSpace(s[0]))
    ensures SingleSpaced(s) ==> CollapseSpaces(s) == s
  {
    if s != "" {
      CollapsedIsSingleSpaced(s[1..]);
      assert s == [s[0]] + s[1..];
      if SingleSpaced(s) {
        assert SingleSpaced(s[1..]);
      }
    }
  }

  lemma {:induction false} NoTagsToStrip(s: string)
    requires '<' !in s
    ensures StripTags(s) == s
  {
    if s != "" {
      NoTagsToStrip(s[1..]);
      assert s == [s[0]] + s[1..];
    }
  }

  // What opens a tag in this text finds its end in it.
  ghost predicate TagsClose(s: string) { forall i :: 0 <= i < |s| && s[i] == '<' ==> ClosesAfter(s, i) }

  ghost predicate ClosesAfter(s: string, i: int) { exists j :: i < j < |s| && j >= 0 && s[j] == '>' }

  lemma FirstTagCloses(s: string)
    requires s != "" && ClosesAfter(s, 0)
    ensures FirstClose(s[1..]).Some?
  {
    var j :| 0 < j < |s| && s[j] == '>';
    assert s[1..][j - 1] == '>';
  }

  lemma {:induction false} FirstCloseStays(s: string, rest: string)
    requires FirstClose(s).Some?
    ensures FirstClose(s + rest) == FirstClose(s)
  {
    assert (s + rest)[0] == s[0];
    if s[0] != '>' {
      assert (s + rest)[1..] == s[1..] + rest;
      FirstCloseStays(s[1..], rest);
    }
  }

  lemma TagsCloseLater(s: string, n: nat)
    requires TagsClose(s) && n <= |s|
    ensures TagsClose(s[n..])
  {
    forall i | 0 <= i < |s[n..]| && s[n..][i] == '<' ensures ClosesAfter(s[n..], i) {
      assert s[n + i] == '<';
      var j :| n + i < j < |s| && s[j] == '>';
      assert s[n..][j - n] == '>';
    }
  }

  // How many characters the first step of stripping takes, and what it leaves of them.
  function TagLength(s: string): (n: nat)
    requires s != ""
    ensures 1 <= n <= |s|
  {
    var close := FirstClose(s[1..]);
    if s[0] == '<' && close.Some? && close.value >= 1 then close.value + 2 else 1
  }

  function StripFirst(s: string): string
    requires s != ""
  {
    if TagLength(s) > 1 then " " else [s[0]]
  }

  lemma StripStep(s: string)
    requires s != ""
    ensures StripTags(s) == StripFirst(s) + StripTags(s[TagLength(s)..])
  {
  }

  lemma FirstStepStays(s: string, rest: string)
    requires s != "" && (s[0] == '<' ==> FirstClose(s[1..]).Some?)
    ensures TagLength(s + rest) == TagLength(s) && StripFirst(s + rest) == StripFirst(s)
    ensures (s + rest)[TagLength(s)..] == s[TagLength(s)..] + rest
  {
    assert (s + rest)[1..] == s[1..] + rest && (s + rest)[0] == s[0];
    if s[0] == '<' {
      FirstCloseStays(s[1..], rest);
    }
  }

  lemma FirstCloses(s: string)
    requires TagsClose(s) && s != ""
    ensures s[0] == '<' ==> FirstClose(s[1..]).Some?
  {
    if s[0] == '<' {
      FirstTagCloses(s);
    }
  }

  lemma StripsAlike(s: string, rest: string)
    requires TagsClose(s) && s != ""
    ensures StripTags(s + rest) == StripFirst(s) + StripTags(s[TagLength(s)..] + rest)
  {
    FirstCloses(s);
    FirstStepStays(s, rest);
    StripStep(s + rest);
  }

  lemma Regrouped(first: string, a: string, b: string, whole: string)
    requires whole == first + a
    ensures first + (a + b) == whole + b
  {
  }

  // Markup that closes every tag it opens is stripped on its own, whatever follows it.
  lemma {:induction false} StripTagsConcat(s: string, rest: string)
    requires TagsClose(s)
    ensures StripTags(s + rest) == StripTags(s) + StripTags(rest)
    decreases |s|
  {
    if s == "" {
      assert s + rest == rest;
    } else {
      var more := s[TagLength(s)..];
      StripsAlike(s, rest);
      TagsCloseLater(s, TagLength(s));
      StripTagsConcat(more, rest);
      StripStep(s);
      Regrouped(StripFirst(s), StripTags(more), StripTags(rest), StripTags(s));
    }
  }

  lemma {:induction false} FirstCloseAfter(s: string, rest: string)
    requires '>' !in s
    ensures FirstClose(s + ">" + rest) == Some(|s|)
  {
    if s == "" {
      assert s + ">" + rest == ">" + rest;
    } else {
      assert (s + ">" + rest)[0] == s[0];
      assert (s + ">" + rest)[1..] == s[1..] + ">" + rest;
      FirstCloseAfter(s[1..], rest);
    }
  }

  // A tag becomes one blank.
  lemma TagIsABlank(inner: string)
    requires inner != "" && '>' !in inner
    ensures StripTags("<" + inner + ">") == " "
  {
    var tag := "<" + inner + ">";
    FirstCloseAfter(inner, "");
    assert tag[1..] == inner + ">" + "";
    assert tag[|inner| + 2..] == "";
  }

  // Collapsing two texts side by side, when blanks do not meet at the seam.
  lemma {:induction false} CollapseConcat(a: string, b: string)
    requires a == "" || b == "" || !IsSpace(a[|a| - 1]) || !IsSpace(b[0])
    ensures CollapseSpaces(a + b) == CollapseSpaces(a) + CollapseSpaces(b)
  {
    if a == "" {
      assert a + b == b;
    } else {
      assert (a + b)[1..] == a[1..] + b && (a + b)[0] == a[0];
      assert |a| > 1 ==> (a + b)[1] == a[1];
      assert |a| == 1 && b != "" ==> (a + b)[1] == b[0];
      CollapseConcat(a[1..], b);
    }
  }

  ghost predicate RealMoment(r: PageTime) {
    && IsDate(r.date.year, r.date.month, r.date.day) && 2020 <= r.date.year <= 2100
    && r.hour <= 23 && r.minute <= 59 && (!r.hasTime ==> r.hour == 0 && r.minute == 0)
  }

  lemma OpeningFollows()
    ensures Follows(Word("current"), 6, 7) && Follows(Word("as"), 6, 7) && Follows(Spaces(), 6, 7)
    ensures Follows(Opt(Cat(Word("of"), Spaces())), 6, 7)
  {
    WordIsPlain("current");
    WordIsPlain("as");
    WordIsPlain("of");
    PlainFollows(Word("current"), 6, 7);
    PlainFollows(Word("as"), 6, 7);
    PlainFollows(Spaces(), 6, 7);
    PlainFollows(Opt(Cat(Word("of"), Spaces())), 6, 7);
  }

  lemma LeadFollows(tail: Re)
    requires Follows(tail, 6, 7)
    ensures Follows(Leading(OfTail(tail)), 6, 7)
  {
    OpeningFollows();
    CatFollows(Spaces(), tail, 6, 7);
    CatFollows(Group(1, DayDigits()), Cat(Spaces(), tail), 6, 7);
    CatFollows(Opt(Cat(Word("of"), Spaces())), DayTail(tail), 6, 7);
    CatFollows(Spaces(), OfTail(tail), 6, 7);
    CatFollows(Word("as"), Cat(Spaces(), OfTail(tail)), 6, 7);
    CatFollows(Spaces(), Cat(Word("as"), Cat(Spaces(), OfTail(tail))), 6, 7);
    CatFollows(Word("current"), Cat(Spaces(), Cat(Word("as"), Cat(Spaces(), OfTail(tail)))), 6, 7);
  }

  lemma ClockFollows()
    ensures Follows(ClockPart(), 6, 7)
  {
    assert Follows(AtPart(), 6, 7);
    assert Follows(LocalPart(), 6, 7);
  }

  lemma YearFollows()
    ensures Follows(YearTail(), 6, 7)
  {
    ClockFollows();
    PlainFollows(WordBoundary, 6, 7);
    CatFollows(Opt(ClockPart()), WordBoundary, 6, 7);
    CatFollows(Opt(Lit(',')), ClockTail(), 6, 7);
    PlainFollows(Digits(4), 6, 7);
    CatFollows(Group(3, Digits(4)), CommaTail(), 6, 7);
  }

  lemma MarksFollow()
    ensures Follows(MarksTail(), 6, 7)
  {
    YearFollows();
    PlainFollows(Spaces(), 6, 7);
    CatFollows(Spaces(), YearTail(), 6, 7);
    CatFollows(Opt(Lit(',')), Cat(Spaces(), YearTail()), 6, 7);
  }

  lemma StampFollows(words: seq<string>)
    requires words != []
    ensures Follows(StampWith(words), 6, 7)
  {
    AnyOfIsPlain(words);
    PlainFollows(AnyOf(words), 6, 7);
    MarksFollow();
    CatFollows(Group(2, AnyOf(words)), MarksTail(), 6, 7);
    LeadFollows(MonthTail(words));
  }

  lemma CapturedInOrder(text: string, i: nat)
    requires i <= |text| && MatchAt(StampExpression(), text, i).Some?
    ensures var groups := MatchAt(StampExpression(), text, i).value.groups; 7 in groups ==> 6 in groups
  {
    var found := MatchAt(StampExpression(), text, i).value;
    MatchIsDescription(StampExpression(), text, i);
    StampFollows(MonthTokens());
    SecondNeedsFirst(StampExpression(), 6, 7, text, i, found.end, NoGroups(), found.groups);
  }

  lemma HitIsReal(text: string, i: nat, wording: string)
    requires i <= |text| && MatchAt(StampExpression(), text, i).Some?
    ensures var r := ReadGroups(MatchAt(StampExpression(), text, i).value.groups, wording);
            r.Some? ==> RealMoment(r.value)
  {
    CapturedInOrder(text, i);
  }

  lemma FirstStampIsFound(text: string, i: nat)
    requires FirstStampAt(text, i)
    ensures Search(StampExpression(), text) == Some((i, MatchAt(StampExpression(), text, i).value))
  {
    SearchIsLeftmost(StampExpression(), text, 0);
    assert Search(StampExpression(), text).Some?;
    assert Search(StampExpression(), text).value.0 == i;
  }

  lemma FoundStampIsFirst(text: string)
    requires Search(StampExpression(), text).Some?
    ensures FirstStampAt(text, Search(StampExpression(), text).value.0)
  {
    SearchIsLeftmost(StampExpression(), text, 0);
  }

  // Any result is a real calendar moment in range, and it is read from the leftmost place where the
  // expression matches; a mangled first stamp is never passed over for a later one.
  lemma ResultIsARealMoment(text: string)
    ensures ParseText(text).Some? ==> RealMoment(ParseText(text).value)
    ensures ParseText(text).Some? ==> exists i: nat :: FirstStampAt(text, i)
    ensures forall i: nat :: FirstStampAt(text, i) ==>
              var found := MatchAt(StampExpression(), text, i).value;
              ParseText(text) == ReadGroups(found.groups, Strip(Slice(text, i, found.end)))
  {
    if Search(StampExpression(), text).Some? {
      var hit := Search(StampExpression(), text).value;
      FoundStampIsFirst(text);
      FirstStampIsFound(text, hit.0);
      HitIsReal(text, hit.0, Strip(Slice(text, hit.0, hit.1.end)));
    }
    forall i: nat | FirstStampAt(text, i)
      ensures var found := MatchAt(StampExpression(), text, i).value;
              ParseText(text) == ReadGroups(found.groups, Strip(Slice(text, i, found.end)))
    {
      FirstStampIsFound(text, i);
    }
  }

  ghost predicate FirstStampAt(text: string, i: nat) {
    && i <= |text| && MatchAt(StampExpression(), text, i).Some?
    && forall j: nat :: j < i ==> MatchAt(StampExpression(), text, j).None?
  }
}
