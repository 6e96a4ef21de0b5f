// The trip form's date fields and the timestamp shown back
// (apps/web/app/trips/new/route.ts `toIso`, apps/web/lib/presentation/adapters/format.ts).
module TripForm {
  import opened Wrappers
  import opened Digits
  import opened Calendar

  const MS_PER_DAY: int := 86_400_000

  // ---- the shape /^\d{4}-\d{2}-\d{2}T\d{2}:\d{2}(:\d{2})?$/ ----

  predicate HasMinuteShape(t: string) {
    && |t| >= 16
    && AllDigits(t[0..4]) && t[4] == '-' && AllDigits(t[5..7]) && t[7] == '-' && AllDigits(t[8..10])
    && t[10] == 'T' && AllDigits(t[11..13]) && t[13] == ':' && AllDigits(t[14..16])
  }

  predicate HasShape(t: string) {
    && HasMinuteShape(t)
    && (|t| == 16 || (|t| == 19 && t[16] == ':' && AllDigits(t[17..19])))
  }

  function SecondsText(t: string): string { if |t| == 19 then t[17..19] else "00" }

  datatype Moment = Moment(year: int, month: int, day: int, hour: int, minute: int, second: int)

  // The numbers a shaped text spells.
  function Spelled(t: string): Moment
    requires HasShape(t)
  {
    Moment(Value(t[0..4]), Value(t[5..7]), Value(t[8..10]), Value(t[11..13]), Value(t[14..16]),
           if |t| == 19 then Value(t[17..19]) else 0)
  }

  // ---- Date, on the strings that reach it ----

  // Time value of a spelled UTC moment; None is NaN. Midnight may be written 24:00 of the day before.
  // A day from 29 to 31 that the month does not have is either refused, as section 21.4.1.32 of
  // ECMA-262 says, or rolled forward, as V8 does; `rolls` is the engine's choice.
  function DateValue(m: Moment, rolls: bool): Option<int> {
    if !(1 <= m.month <= 12 && 1 <= m.day <= 31) then None
    else if !rolls && m.day > DaysInMonth(m.year, m.month) then None
    else if m.minute > 59 || m.second > 59 || m.hour > 24 then None
    else if m.hour == 24 && (m.minute != 0 || m.second != 0) then None
    else Some(DayNumber(m.year, m.month, m.day) * MS_PER_DAY + ((m.hour * 60 + m.minute) * 60 + m.second) * 1000)
  }

  function DayOf(t: int): int { t / MS_PER_DAY }
  function HourOf(t: int): int { (t % MS_PER_DAY) / 3_600_000 }
  function MinuteOf(t: int): int { (t % 3_600_000) / 60_000 }
  function SecondOf(t: int): int { (t % 60_000) / 1000 }

  // Years outside 0..9999 print with a sign and six digits.
  function YearText(y: int): string {
    if 0 <= y <= 9999 then FixedWidth(y, 4)
    else if y >= 0 then "+" + FixedWidth(y, 6) else "-" + FixedWidth(-y, 6)
  }

  function DateText(c: Date): string
    requires 1 <= c.month <= 12 && 1 <= c.day <= 31
  {
    YearText(c.year) + "-" + FixedWidth(c.month, 2) + "-" + FixedWidth(c.day, 2)
  }

  function ClockText(t: int): string { FixedWidth(HourOf(t), 2) + ":" + FixedWidth(MinuteOf(t), 2) }

  // `toISOString()`
  function IsoString(t: int): string {
    var c := Civil(DayOf(t));
    CivilIsADate(DayOf(t));
    DateText(c) + "T" + ClockText(t) + ":" + FixedWidth(SecondOf(t), 2) + "." + FixedWidth(t % 1000, 3) + "Z"
  }

  predicate StartsWith(s: string, prefix: string) { |prefix| <= |s| && s[..|prefix|] == prefix }

  // `toIso`: the form's text as an ISO instant, or null.
  function ToIso(text: string, rolls: bool): Option<string> {
    if !HasShape(text) then None
    else
      var date := DateValue(Spelled(text), rolls);
      if date.None? then None
      else if !StartsWith(IsoString(date.value), text[..16]) then None
      else Some(IsoString(date.value))
  }

  // Which spelled moments name a time value, and which: the end of a day is the midnight after it.
  lemma DateValueExactly(m: Moment, rolls: bool)
    requires m.hour >= 0 && m.minute >= 0 && m.second >= 0
    ensures DateValue(m, rolls).Some? <==>
              && 1 <= m.month <= 12 && 1 <= m.day <= (if rolls then 31 else DaysInMonth(m.year, m.month))
              && ((m.hour < 24 && m.minute < 60 && m.second < 60) || (m.hour == 24 && m.minute == 0 == m.second))
    ensures DateValue(m, rolls).Some? ==>
              DateValue(m, rolls).value
              == (DayNumber(m.year, m.month, 1) + m.day - 1) * 86_400_000 + m.hour * 3_600_000 + m.minute * 60_000
                 + m.second * 1000
  {
  }

  // Years of five or six digits, or before year 0, print with their sign.
  lemma FarYears(y: int)
    ensures 9999 < y <= 999_999 ==>
              |YearText(y)| == 7 && YearText(y)[..1] == "+" && Value(YearText(y)[1..]) == y
    ensures -999_999 <= y < 0 ==>
              |YearText(y)| == 7 && YearText(y)[..1] == "-" && Value(YearText(y)[1..]) == -y
  {
    assert Pow10(1) == 10 && Pow10(2) == 100 && Pow10(3) == 1000 && Pow10(4) == 10000 && Pow10(5) == 100_000;
    assert Pow10(6) == 1_000_000;
    if 9999 < y <= 999_999 || -999_999 <= y < 0 {
      var n := if y < 0 then -y else y;
      FixedWidthReads(n, 6);
      assert YearText(y)[1..] == FixedWidth(n, 6);
    }
  }

  // ---- which texts are accepted ----

  predicate ExistingMoment(m: Moment) {
    IsDate(m.year, m.month, m.day) && 0 <= m.hour <= 23 && 0 <= m.minute <= 59 && 0 <= m.second <= 59
  }

  lemma TimeParts(day: int, h: int, mi: int, s: int)
    requires 0 <= h <= 23 && 0 <= mi <= 59 && 0 <= s <= 59
    ensures var t := day * MS_PER_DAY + ((h * 60 + mi) * 60 + s) * 1000;
            DayOf(t) == day && HourOf(t) == h && MinuteOf(t) == mi && SecondOf(t) == s && t % 1000 == 0
  {
    var minutes, millis := h * 60 + mi, s * 1000;
    var within := minutes * 60_000 + millis;
    var t := day * MS_PER_DAY + within;
    DaySplit(day, within);
    HourSplit(h, mi * 60_000 + millis);
    HourSplit(day * 24 + h, mi * 60_000 + millis);
    MinuteSplit(mi, millis);
    MinuteSplit((day * 24 + h) * 60 + mi, millis);
    SecondSplit(s, 0);
    SecondSplit(((day * 24 + h) * 60 + mi) * 60 + s, 0);
  }

  lemma DaySplit(q: int, r: int)
    requires 0 <= r < MS_PER_DAY
    ensures (q * MS_PER_DAY + r) / MS_PER_DAY == q && (q * MS_PER_DAY + r) % MS_PER_DAY == r
  {
  }

  lemma HourSplit(q: int, r: int)
    requires 0 <= r < 3_600_000
    ensures (q * 3_600_000 + r) / 3_600_000 == q && (q * 3_600_000 + r) % 3_600_000 == r
  {
  }

  lemma MinuteSplit(q: int, r: int)
    requires 0 <= r < 60_000
    ensures (q * 60_000 + r) / 60_000 == q && (q * 60_000 + r) % 60_000 == r
  {
  }

  lemma SecondSplit(q: int, r: int)
    requires 0 <= r < 1000
    ensures (q * 1000 + r) / 1000 == q && (q * 1000 + r) % 1000 == r
  {
  }

  // Text that spells a width-w number is that number, padded.
  lemma SpelledText(s: string, n: nat)
    requires AllDigits(s) && n < Pow10(|s|)
    ensures FixedWidth(n, |s|) == s <==> Value(s) == n
  {
    ValuePrints(s);
    FixedWidthReads(n, |s|);
  }

  lemma SmallPowers()
    ensures Pow10(2) == 100 && Pow10(3) == 1000 && Pow10(4) == 10000
  {
    assert Pow10(1) == 10;
  }

  lemma MinutePrefix(text: string, y: string, mo: string, d: string, h: string, mi: string)
    requires HasMinuteShape(text) && |y| == 4 && |mo| == 2 && |d| == 2 && |h| == 2 && |mi| == 2
    ensures text[..16] == y + "-" + mo + "-" + d + "T" + h + ":" + mi <==>
            text[0..4] == y && text[5..7] == mo && text[8..10] == d && text[11..13] == h && text[14..16] == mi
  {
    var p := y + "-" + mo + "-" + d + "T" + h + ":" + mi;
    assert |p| == 16;
    assert p[0..4] == y && p[5..7] == mo && p[8..10] == d && p[11..13] == h && p[14..16] == mi;
    if text[0..4] == y && text[5..7] == mo && text[8..10] == d && text[11..13] == h && text[14..16] == mi {
      assert text[..16] == text[0..4] + [text[4]] + text[5..7] + [text[7]] + text[8..10] + [text[10]]
                           + text[11..13] + [text[13]] + text[14..16];
    }
    if text[..16] == p {
      assert text[..16][0..4] == text[0..4] && text[..16][5..7] == text[5..7] && text[..16][8..10] == text[8..10]
          && text[..16][11..13] == text[11..13] && text[..16][14..16] == text[14..16];
    }
  }

  // The start of a printed instant, for a year that prints with four digits.
  function PrintedMinute(t: int): string {
    var c := Civil(DayOf(t));
    CivilIsADate(DayOf(t));
    DateText(c) + "T" + ClockText(t)
  }

  lemma PrintedMinuteLeads(t: int, prefix: string)
    requires |prefix| == 16
    ensures 0 <= Civil(DayOf(t)).year <= 9999 ==>
              |PrintedMinute(t)| == 16 && (StartsWith(IsoString(t), prefix) <==> PrintedMinute(t) == prefix)
    ensures !(0 <= Civil(DayOf(t)).year <= 9999) && StartsWith(IsoString(t), prefix) ==> !IsDigit(prefix[0])
  {
    var rest := ":" + FixedWidth(SecondOf(t), 2) + "." + FixedWidth(t % 1000, 3) + "Z";
    assert IsoString(t) == PrintedMinute(t) + rest;
    if 0 <= Civil(DayOf(t)).year <= 9999 {
      assert (PrintedMinute(t) + rest)[..16] == PrintedMinute(t);
    } else if StartsWith(IsoString(t), prefix) {
      assert prefix[0] == IsoString(t)[0] == YearText(Civil(DayOf(t)).year)[0];
    }
  }

  function MinuteText(y: nat, mo: nat, d: nat, h: nat, mi: nat): string {
    FixedWidth(y, 4) + "-" + FixedWidth(mo, 2) + "-" + FixedWidth(d, 2) + "T" + FixedWidth(h, 2) + ":"
    + FixedWidth(mi, 2)
  }

  // A printed minute is the start of a text exactly when the text spells its five numbers.
  lemma MinuteSpells(text: string, y: nat, mo: nat, d: nat, h: nat, mi: nat)
    requires HasShape(text) && y <= 9999 && mo < 100 && d < 100 && h < 100 && mi < 100
    ensures MinuteText(y, mo, d, h, mi) == text[..16] <==>
            var m := Spelled(text); m.year == y && m.month == mo && m.day == d && m.hour == h && m.minute == mi
  {
    SmallPowers();
    MinutePrefix(text, FixedWidth(y, 4), FixedWidth(mo, 2), FixedWidth(d, 2), FixedWidth(h, 2), FixedWidth(mi, 2));
    SpelledText(text[0..4], y);
    SpelledText(text[5..7], mo);
    SpelledText(text[8..10], d);
    SpelledText(text[11..13], h);
    SpelledText(text[14..16], mi);
  }

  lemma PrintedMinuteText(t: int)
    requires 0 <= Civil(DayOf(t)).year <= 9999
    ensures var c := Civil(DayOf(t));
            && IsDate(c.year, c.month, c.day) && 0 <= HourOf(t) < 24 && 0 <= MinuteOf(t) < 60
            && PrintedMinute(t) == MinuteText(c.year, c.month, c.day, HourOf(t), MinuteOf(t))
  {
    CivilIsADate(DayOf(t));
  }

  lemma SpelledYearIsShort(text: string)
    requires HasShape(text)
    ensures 0 <= Spelled(text).year <= 9999 && IsDigit(text[..16][0])
  {
    SmallPowers();
    ValuePrints(text[0..4]);
    assert IsDigit(text[0..4][0]);
  }

  // A printed instant begins with the text exactly when it spells the instant's own date and clock.
  lemma PrefixSpellsTheInstant(text: string, t: int)
    requires HasShape(text)
    ensures StartsWith(IsoString(t), text[..16]) <==>
            var c, m := Civil(DayOf(t)), Spelled(text);
            c == Date(m.year, m.month, m.day) && m.hour == HourOf(t) && m.minute == MinuteOf(t)
  {
    var c := Civil(DayOf(t));
    SpelledYearIsShort(text);
    PrintedMinuteLeads(t, text[..16]);
    if 0 <= c.year <= 9999 {
      PrintedMinuteText(t);
      MinuteSpells(text, c.year, c.month, c.day, HourOf(t), MinuteOf(t));
    }
  }

  // The instant of an existing moment has that moment's fields.
  lemma InstantOfMoment(m: Moment, rolls: bool)
    requires ExistingMoment(m)
    ensures DateValue(m, rolls).Some?
    ensures var t := DateValue(m, rolls).value;
            && Civil(DayOf(t)) == Date(m.year, m.month, m.day)
            && HourOf(t) == m.hour && MinuteOf(t) == m.minute && SecondOf(t) == m.second && t % 1000 == 0
  {
    TimeParts(DayNumber(m.year, m.month, m.day), m.hour, m.minute, m.second);
    DateOfItsDayNumber(m.year, m.month, m.day);
  }

  // Conversely, an instant read from spelled fields shows them back only if they name one.
  lemma OnlyMomentsShowBack(m: Moment, rolls: bool)
    requires DateValue(m, rolls).Some? && m.hour >= 0 && m.minute >= 0 && m.second >= 0
    requires var t := DateValue(m, rolls).value;
             Civil(DayOf(t)) == Date(m.year, m.month, m.day) && HourOf(t) == m.hour
    ensures ExistingMoment(m)
  {
    var day := DayNumber(m.year, m.month, m.day);
    if m.hour == 24 {
      TimeParts(day + 1, 0, 0, 0);
      assert false;
    } else {
      TimeParts(day, m.hour, m.minute, m.second);
      RolledDayDiffers(m.year, m.month, m.day);
    }
  }

  lemma ShapedMoments(text: string, rolls: bool)
    ensures ToIso(text, rolls).Some? <==> HasShape(text) && ExistingMoment(Spelled(text))
  {
    if HasShape(text) {
      var m := Spelled(text);
      if ExistingMoment(m) {
        InstantOfMoment(m, rolls);
      }
      if DateValue(m, rolls).Some? {
        var t := DateValue(m, rolls).value;
        PrefixSpellsTheInstant(text, t);
        if ToIso(text, rolls).Some? {
          OnlyMomentsShowBack(m, rolls);
        }
      }
    }
  }

  // ---- the same, as what a person types ----

  // A civil second of the years 0 to 9999.
  ghost predicate CivilSecond(m: Moment) {
    && 0 <= m.year <= 9999 && IsDate(m.year, m.month, m.day)
    && 0 <= m.hour <= 23 && 0 <= m.minute <= 59 && 0 <= m.second <= 59
  }

  // The padded numbers with their marks; seconds may be left out when they are zero.
  ghost predicate Types(text: string, m: Moment) {
    && CivilSecond(m)
    && var minute := FixedWidth(m.year, 4) + "-" + FixedWidth(m.month, 2) + "-" + FixedWidth(m.day, 2) + "T"
                     + FixedWidth(m.hour, 2) + ":" + FixedWidth(m.minute, 2);
       (text == minute && m.second == 0) || text == minute + ":" + FixedWidth(m.second, 2)
  }

  lemma PiecesHaveMinuteShape(y: string, mo: string, d: string, h: string, mi: string, rest: string)
    requires |y| == 4 && |mo| == 2 && |d| == 2 && |h| == 2 && |mi| == 2
    requires AllDigits(y) && AllDigits(mo) && AllDigits(d) && AllDigits(h) && AllDigits(mi)
    ensures var minute := y + "-" + mo + "-" + d + "T" + h + ":" + mi;
            |minute| == 16 && HasMinuteShape(minute + rest) && (minute + rest)[..16] == minute
  {
    var text := y + "-" + mo + "-" + d + "T" + h + ":" + mi + rest;
    assert text[0..4] == y && text[5..7] == mo && text[8..10] == d && text[11..13] == h && text[14..16] == mi;
    assert text == (y + "-" + mo + "-" + d + "T" + h + ":" + mi) + rest;
  }

  lemma TypedIsShaped(text: string, m: Moment)
    requires Types(text, m)
    ensures HasShape(text) && Spelled(text) == m
  {
    var minute := MinuteText(m.year, m.month, m.day, m.hour, m.minute);
    var rest := if text == minute then "" else ":" + FixedWidth(m.second, 2);
    assert text == minute + rest;
    PiecesHaveMinuteShape(FixedWidth(m.year, 4), FixedWidth(m.month, 2), FixedWidth(m.day, 2), FixedWidth(m.hour, 2),
                          FixedWidth(m.minute, 2), rest);
    if rest != "" {
      SmallPowers();
      assert text[16] == ':' && text[17..19] == FixedWidth(m.second, 2);
      FixedWidthReads(m.second, 2);
    }
    MinuteSpells(text, m.year, m.month, m.day, m.hour, m.minute);
  }

  lemma ShapedIsTyped(text: string)
    requires HasShape(text) && ExistingMoment(Spelled(text))
    ensures Types(text, Spelled(text))
  {
    var m := Spelled(text);
    SpelledYearIsShort(text);
    MinuteSpells(text, m.year, m.month, m.day, m.hour, m.minute);
    SecondsAsPrinted(text);
    if |text| == 19 {
      assert text == text[..16] + ":" + text[17..19];
    } else {
      assert text[..16] == text;
    }
  }

  // `toIso` accepts exactly the texts of existing civil minutes, whichever way the engine treats a day
  // the month does not have.
  lemma ToIsoAcceptsExistingMinutes(text: string, rolls: bool)
    ensures ToIso(text, rolls).Some? <==> exists m :: Types(text, m)
  {
    ShapedMoments(text, rolls);
    if ToIso(text, rolls).Some? {
      ShapedIsTyped(text);
    }
    if m :| Types(text, m) {
      TypedIsShaped(text, m);
    }
  }

  // What it returns for them is the text itself, with seconds, milliseconds and the zone added.
  lemma ToIsoKeepsTheText(text: string, m: Moment, rolls: bool)
    requires Types(text, m)
    ensures |text| >= 16 && ToIso(text, rolls) == Some(text[..16] + ":" + FixedWidth(m.second, 2) + ".000Z")
  {
    TypedIsShaped(text, m);
    ShapedMoments(text, rolls);
    InstantOfMoment(m, rolls);
    SecondsAsPrinted(text);
    PrintedRest(text, DateValue(m, rolls).value);
  }

  lemma SecondsAsPrinted(text: string)
    requires HasShape(text)
    ensures SecondsText(text) == FixedWidth(Spelled(text).second, 2)
  {
    SmallPowers();
    if |text| == 19 {
      ValuePrints(text[17..19]);
    } else {
      assert FixedWidth(0, 2) == "00";
    }
  }

  lemma PrintedRest(text: string, t: int)
    requires HasShape(text) && t % 1000 == 0 && FixedWidth(SecondOf(t), 2) == SecondsText(text)
    requires StartsWith(IsoString(t), text[..16])
    ensures IsoString(t) == text[..16] + ":" + SecondsText(text) + ".000Z"
  {
    SpelledYearIsShort(text);
    PrintedMinuteLeads(t, text[..16]);
    assert FixedWidth(0, 3) == "000";
    RestParts(PrintedMinute(t), SecondsText(text));
  }

  lemma RestParts(minute: string, seconds: string)
    ensures minute + ":" + seconds + "." + "000" + "Z" == minute + ":" + seconds + ".000Z"
  {
  }

  // ---- the timestamp shown back ----

  // `formatTimestamp` of the instant with this time value; the year is not padded.
  function FormatTime(t: int): string {
    var c := Civil(DayOf(t));
    CivilIsADate(DayOf(t));
    (if c.year >= 0 then Decimal(c.year) else "-" + Decimal(-c.year))
    + "-" + FixedWidth(c.month, 2) + "-" + FixedWidth(c.day, 2) + " " + ClockText(t) + "Z"
  }

  // The instant `new Date(iso)` reads from what `toISOString` printed.
  function ReadIso(iso: string, rolls: bool): Option<int> {
    if |iso| == 24 && HasShape(iso[..19]) && iso[19] == '.' && AllDigits(iso[20..23]) && iso[23] == 'Z'
    then
      var whole := DateValue(Spelled(iso[..19]), rolls);
      if whole.None? then None else Some(whole.value + Value(iso[20..23]))
    else None
  }

  // A text is read only with its seconds, three digits of milliseconds and the zone.
  lemma OnlyFullTextsAreRead(iso: string, rolls: bool)
    requires ReadIso(iso, rolls).Some?
    ensures |iso| == 24 && HasShape(iso[..19]) && AllDigits(iso[20..23])
    ensures iso == iso[..19] + "." + iso[20..23] + "Z"
  {
    assert iso == iso[..19] + [iso[19]] + iso[20..23] + [iso[23]];
  }

  // Milliseconds from 1970 to a civil second.
  ghost function Instant(m: Moment): int
    requires 1 <= m.month <= 12
  {
    DayNumber(m.year, m.month, m.day) * 86_400_000 + ((m.hour * 60 + m.minute) * 60 + m.second) * 1000
  }

  lemma InstantIsTheDateValue(m: Moment, rolls: bool)
    requires CivilSecond(m)
    ensures ExistingMoment(m) && DateValue(m, rolls) == Some(Instant(m))
  {
  }

  lemma ReadsBack(text: string, m: Moment, rolls: bool)
    requires Types(text, m)
    ensures ToIso(text, rolls).Some? && ReadIso(ToIso(text, rolls).value, rolls) == Some(Instant(m))
  {
    TypedIsShaped(text, m);
    InstantIsTheDateValue(m, rolls);
    ToIsoKeepsTheText(text, m, rolls);
    SecondsAsPrinted(text);
    var iso := text[..16] + ":" + SecondsText(text) + ".000Z";
    ReadsItsOwnText(text, iso, rolls);
  }

  lemma ShowsAsTyped(text: string, m: Moment)
    requires Types(text, m)
    ensures |text| >= 16
    ensures FormatTime(Instant(m)) == Decimal(m.year) + text[4..10] + " " + text[11..16] + "Z"
    ensures FormatTime(Instant(m)) == text[..10] + " " + text[11..16] + "Z" <==> m.year >= 1000
  {
    TypedIsShaped(text, m);
    InstantIsTheDateValue(m, true);
    ShownYear(text, m, Instant(m));
  }

  // The accepted instant reads back as the typed moment, and is shown with the date and clock the person
  // typed exactly for years from 1000 on: smaller years lose their leading zeros.
  lemma ShownAsTyped(text: string, m: Moment, rolls: bool)
    requires Types(text, m)
    ensures ToIso(text, rolls).Some? && ReadIso(ToIso(text, rolls).value, rolls) == Some(Instant(m))
    ensures |text| >= 16
    ensures FormatTime(Instant(m)) == Decimal(m.year) + text[4..10] + " " + text[11..16] + "Z"
    ensures FormatTime(Instant(m)) == text[..10] + " " + text[11..16] + "Z" <==> m.year >= 1000
  {
    ReadsBack(text, m, rolls);
    ShowsAsTyped(text, m);
  }

  // Adding ":00.000Z" or ".000Z" changes none of the numbers a text spells.
  lemma ReadsItsOwnText(text: string, iso: string, rolls: bool)
    requires HasShape(text) && DateValue(Spelled(text), rolls).Some?
    requires iso == text[..16] + ":" + SecondsText(text) + ".000Z"
    ensures ReadIso(iso, rolls) == DateValue(Spelled(text), rolls)
  {
    var full := text[..16] + ":" + SecondsText(text);
    assert iso == full + ".000Z" && iso[..19] == full && iso[20..23] == "000";
    assert full[0..4] == text[0..4] && full[5..7] == text[5..7] && full[8..10] == text[8..10]
        && full[11..13] == text[11..13] && full[14..16] == text[14..16] && full[17..19] == SecondsText(text);
    ZerosAreZero();
    assert Spelled(full) == Spelled(text);
  }

  lemma ZerosAreZero()
    ensures Value("00") == 0 && Value("000") == 0
  {
    assert "00"[..1] == "0" && "0"[..0] == "" && "000"[..2] == "00";
    assert Value("0") == 0;
  }

  lemma ShownYear(text: string, m: Moment, t: int)
    requires HasShape(text) && m == Spelled(text) && ExistingMoment(m)
    requires Some(t) == DateValue(m, true)
    ensures FormatTime(t) == Decimal(m.year) + text[4..10] + " " + text[11..16] + "Z"
    ensures FormatTime(t) == text[..10] + " " + text[11..16] + "Z" <==> m.year >= 1000
  {
    InstantOfMoment(m, true);
    SpelledYearIsShort(text);
    TailAsPrinted(text);
    ShownParts(Decimal(m.year), text[5..7], text[8..10], text[11..13], text[14..16]);
    TypedParts(text);
    TailAsTyped(text);
    YearAsTyped(text);
    SameTail(Decimal(m.year), text[0..4], Tail(text[5..7], text[8..10], text[11..13], text[14..16]));
  }

  function Tail(mo: string, d: string, h: string, mi: string): string {
    "-" + mo + "-" + d + " " + h + ":" + mi + "Z"
  }

  lemma ShownParts(y: string, mo: string, d: string, h: string, mi: string)
    ensures y + "-" + mo + "-" + d + " " + (h + ":" + mi) + "Z" == y + Tail(mo, d, h, mi)
  {
  }

  lemma TypedParts(text: string)
    requires HasMinuteShape(text)
    ensures text[..10] + " " + text[11..16] + "Z"
         == text[0..4] + Tail(text[5..7], text[8..10], text[11..13], text[14..16])
  {
    assert text[..10] == text[0..4] + "-" + text[5..7] + "-" + text[8..10];
    assert text[11..16] == text[11..13] + ":" + text[14..16];
    ShownParts(text[0..4], text[5..7], text[8..10], text[11..13], text[14..16]);
  }

  lemma TailAsTyped(text: string)
    requires HasMinuteShape(text)
    ensures forall y: string :: y + Tail(text[5..7], text[8..10], text[11..13], text[14..16])
                                == y + text[4..10] + " " + text[11..16] + "Z"
  {
    assert text[4..10] == "-" + text[5..7] + "-" + text[8..10] && text[11..16] == text[11..13] + ":" + text[14..16];
    forall y: string
      ensures y + Tail(text[5..7], text[8..10], text[11..13], text[14..16])
              == y + text[4..10] + " " + text[11..16] + "Z"
    {
    }
  }

  lemma YearAsTyped(text: string)
    requires HasShape(text)
    ensures Decimal(Spelled(text).year) == text[0..4] <==> Spelled(text).year >= 1000
  {
    SmallPowers();
    ValuePrints(text[0..4]);
    PaddedIsPlain(Spelled(text).year, 4);
  }

  lemma TailAsPrinted(text: string)
    requires HasShape(text)
    ensures var m := Spelled(text);
            && FixedWidth(m.month, 2) == text[5..7] && FixedWidth(m.day, 2) == text[8..10]
            && FixedWidth(m.hour, 2) == text[11..13] && FixedWidth(m.minute, 2) == text[14..16]
  {
    ValuePrints(text[5..7]);
    ValuePrints(text[8..10]);
    ValuePrints(text[11..13]);
    ValuePrints(text[14..16]);
  }

  lemma SameTail(a: string, b: string, tail: string)
    ensures a + tail == b + tail <==> a == b
  {
    if a + tail == b + tail {
      assert |a| == |b|;
      assert (a + tail)[..|a|] == a && (b + tail)[..|b|] == b;
    }
  }
}
