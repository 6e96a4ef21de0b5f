// What the order of tied observations can change in a report, and what it cannot.
module ReliabilityTies {
  import opened Wrappers
  import opened Sequences
  import opened Domain
  import opened ReliabilityGate
  import opened ReliabilityLaws
  import opened ReliabilityOrder

  lemma PermutedWindow(a: seq<SourceObservation>, b: seq<SourceObservation>, start: Time, now: Time)
    requires multiset(a) == multiset(b)
    ensures multiset(Inside(a, start, now)) == multiset(Inside(b, start, now))
    ensures multiset(Reads(a, start, now)) == multiset(Reads(b, start, now))
  {
    SortCorrect(a, ByTime());
    SortCorrect(b, ByTime());
    FilterMultiset(History(a), History(b), InWindow(start, now));
    FilterMultiset(Inside(a, start, now), Inside(b, start, now), IsRead());
  }

  // ---- the times of two sorted arrangements agree ----

  lemma {:induction false} SortedTimesAgree(a: seq<SourceObservation>, b: seq<SourceObservation>)
    requires multiset(a) == multiset(b) && SortedBy(a, ByTime()) && SortedBy(b, ByTime())
    ensures Map(a, ByTime()) == Map(b, ByTime())
  {
    var x, y := Map(a, ByTime()), Map(b, ByTime());
    PermutedTimes(a, b);
    assert SortedBy(x, Same()) by {
      forall i, j | 0 <= i < j < |x| ensures Same()(x[i]) <= Same()(x[j]) {
        assert ByTime()(a[i]) <= ByTime()(a[j]);
      }
    }
    assert SortedBy(y, Same()) by {
      forall i, j | 0 <= i < j < |y| ensures Same()(y[i]) <= Same()(y[j]) {
        assert ByTime()(b[i]) <= ByTime()(b[j]);
      }
    }
    SortedUnique(x, y, Same());
  }

  function AtTime(t: Time): SourceObservation -> bool { (o: SourceObservation) => o.At() == t }

  lemma {:induction false} TimeCount(s: seq<SourceObservation>, t: Time)
    ensures multiset(Map(s, ByTime()))[t] == |Filter(s, AtTime(t))|
  {
    if s != [] {
      TimeCount(s[1..], t);
      assert Map(s, ByTime()) == [s[0].At()] + Map(s[1..], ByTime());
    }
  }

  lemma PermutedTimes(a: seq<SourceObservation>, b: seq<SourceObservation>)
    requires multiset(a) == multiset(b)
    ensures multiset(Map(a, ByTime())) == multiset(Map(b, ByTime()))
  {
    forall t ensures multiset(Map(a, ByTime()))[t] == multiset(Map(b, ByTime()))[t] {
      TimeCount(a, t);
      TimeCount(b, t);
      FilterMultiset(a, b, AtTime(t));
      SameLength(Filter(a, AtTime(t)), Filter(b, AtTime(t)));
    }
  }

  // ---- what a permutation keeps ----

  lemma PermutedBegin(a: seq<SourceObservation>, b: seq<SourceObservation>, start: Time, now: Time)
    requires multiset(a) == multiset(b)
    ensures Clipped(a, start, now) == Clipped(b, start, now)
    ensures Begin(a, start, now) == Begin(b, start, now)
  {
    SameMembers(a, b);
    ClippedByTwoFacts(a, start, now);
    ClippedByTwoFacts(b, start, now);
    PermutedWindow(a, b, start, now);
    SameMembers(Inside(a, start, now), Inside(b, start, now));
    WindowContents(a, start, now);
    WindowContents(b, start, now);
    SortedTimesAgree(Inside(a, start, now), Inside(b, start, now));
    if Inside(a, start, now) != [] {
      assert Map(Inside(a, start, now), ByTime())[0] == Map(Inside(b, start, now), ByTime())[0];
    }
  }

  lemma PermutedGaps(a: seq<SourceObservation>, b: seq<SourceObservation>, start: Time, now: Time)
    requires multiset(a) == multiset(b)
    ensures WindowGaps(a, start, now) == WindowGaps(b, start, now)
  {
    PermutedBegin(a, b, start, now);
    PermutedWindow(a, b, start, now);
    WindowContents(a, start, now);
    WindowContents(b, start, now);
    SortedTimesAgree(Reads(a, start, now), Reads(b, start, now));
  }

  lemma OnlyLatenciesDiffer(begin: Time, clipped: bool, recorded: nat, successful: nat, hashed: bool, gaps: seq<int>,
                            these: seq<int>, those: seq<int>, expected: int)
    requires gaps != []
    ensures AlikeButForChanges(Measurement(begin, clipped, recorded, successful, hashed, gaps, these, expected),
                               Measurement(begin, clipped, recorded, successful, hashed, gaps, those, expected))
  {
  }

  lemma MeasuredReport(inside: seq<SourceObservation>, clipped: bool, cadence: Option<int>, start: Time, now: Time,
                       begin: Time, successful: nat, hashed: bool, gaps: seq<int>, expected: int)
    requires cadence.Some? && cadence.value > 0 && (clipped ==> inside != []) && gaps != []
    requires begin == if clipped then inside[0].At() else start
    requires successful == |Filter(inside, IsRead())| && hashed == AllHashed(Filter(inside, IsRead()))
    requires gaps == Gaps(Points(begin, Filter(inside, IsRead()), now))
    requires expected == Expected(now - begin, cadence.value)
    ensures Report(inside, true, clipped, cadence, start, now)
         == Measurement(begin, clipped, |inside|, successful, hashed, gaps,
                        Latencies(Filter(inside, IsRead())), expected)
  {
  }

  // Reports on two windows that agree in size, reads, start and gaps differ in the changes alone.
  lemma ReportsAlike(x: seq<SourceObservation>, y: seq<SourceObservation>, clipped: bool, cadence: Option<int>,
                     start: Time, now: Time, begin: Time, successful: nat, hashed: bool, gaps: seq<int>)
    requires cadence.Some? && cadence.value > 0 && gaps != []
    requires |x| == |y| && (clipped ==> x != [])
    requires begin == (if clipped then x[0].At() else start) == (if clipped then y[0].At() else start)
    requires |Filter(x, IsRead())| == |Filter(y, IsRead())| == successful
    requires AllHashed(Filter(x, IsRead())) == AllHashed(Filter(y, IsRead())) == hashed
    requires Gaps(Points(begin, Filter(x, IsRead()), now)) == Gaps(Points(begin, Filter(y, IsRead()), now)) == gaps
    ensures AlikeButForChanges(Report(x, true, clipped, cadence, start, now),
                               Report(y, true, clipped, cadence, start, now))
  {
    var expected := Expected(now - begin, cadence.value);
    MeasuredReport(x, clipped, cadence, start, now, begin, successful, hashed, gaps, expected);
    MeasuredReport(y, clipped, cadence, start, now, begin, successful, hashed, gaps, expected);
    OnlyLatenciesDiffer(begin, clipped, |x|, successful, hashed, gaps,
                        Latencies(Filter(x, IsRead())), Latencies(Filter(y, IsRead())), expected);
  }

  ghost predicate AlikeButForChanges(x: SourceReliability, y: SourceReliability) {
    && x == y.(changes := x.changes, detectionP95 := x.detectionP95, verdict := x.verdict)
    && (x.verdict == Stop <==> y.verdict == Stop)
    && (x.verdict == Unknown <==> y.verdict == Unknown)
  }

  lemma PermutedCounts(a: seq<SourceObservation>, b: seq<SourceObservation>, start: Time, now: Time)
    requires multiset(a) == multiset(b)
    ensures |Inside(a, start, now)| == |Inside(b, start, now)|
    ensures |Reads(a, start, now)| == |Reads(b, start, now)|
    ensures AllHashed(Reads(a, start, now)) == AllHashed(Reads(b, start, now))
  {
    PermutedWindow(a, b, start, now);
    SameLength(Inside(a, start, now), Inside(b, start, now));
    SameMembers(Reads(a, start, now), Reads(b, start, now));
    assert Reads(a, start, now) == [] <==> Reads(b, start, now) == [];
  }

  // Every permutation of a history, ties and all, is reported alike, except for the changes it shows
  // and what follows from them: their number, their percentile, and Pass against Watch.
  lemma TiesOnlyMoveChanges(a: seq<SourceObservation>, b: seq<SourceObservation>, cadence: Option<int>,
                            start: Time, now: Time)
    requires cadence.Some? ==> cadence.value > 0
    requires multiset(a) == multiset(b)
    ensures AlikeButForChanges(Reliability(a, cadence, start, now), Reliability(b, cadence, start, now))
  {
    SameLength(a, b);
    PermutedCounts(a, b, start, now);
    PermutedBegin(a, b, start, now);
    PermutedGaps(a, b, start, now);
    if cadence.Some? && a != [] {
      ReportsAlike(Inside(a, start, now), Inside(b, start, now), Clipped(a, start, now), cadence, start, now,
                   Begin(a, start, now), |Reads(a, start, now)|, AllHashed(Reads(a, start, now)),
                   WindowGaps(a, start, now));
    }
  }

  // ---- what a permutation can change ----

  function HashedAt(at: Time, hash: string): SourceObservation { ReadAt(at).(contentHash := Some(hash)) }

  const SEVEN: Time := 7 * MICROS_PER_HOUR

  // A source first seen before the window, read once at its start and twice at its end.
  function TiedHistory(first: string, second: string): seq<SourceObservation> {
    [HashedAt(-1, "z")] + TiedWindow(first, second)
  }

  function TiedWindow(first: string, second: string): seq<SourceObservation> {
    [HashedAt(0, "x"), HashedAt(SEVEN, first), HashedAt(SEVEN, second)]
  }

  lemma OneRowBeforeTheWindow(row: SourceObservation, window: seq<SourceObservation>, start: Time, now: Time)
    requires row.At() < start && SortedBy([row] + window, ByTime())
    requires forall i :: 0 <= i < |window| ==> start <= window[i].At() <= now
    ensures Inside([row] + window, start, now) == window && !Clipped([row] + window, start, now)
  {
    SortedStays([row] + window, ByTime());
    FilterConcat([row], window, InWindow(start, now));
    FilterNone([row], InWindow(start, now));
    FilterAll(window, InWindow(start, now));
  }

  lemma TiedGaps(first: string, second: string)
    ensures Gaps(Points(0, TiedWindow(first, second), SEVEN)) == [0, SEVEN, 0, 0]
  {
    var points := [0, 0, SEVEN, SEVEN, SEVEN];
    assert Points(0, TiedWindow(first, second), SEVEN) == points;
    GapsCount(points);
    assert Gaps(points)[0] == 0 && Gaps(points)[1] == SEVEN && Gaps(points)[2] == 0 && Gaps(points)[3] == 0;
    assert Gaps(points) == [0, SEVEN, 0, 0];
  }

  lemma TiedHistoryInside(first: string, second: string)
    ensures Inside(TiedHistory(first, second), 0, SEVEN) == TiedWindow(first, second)
    ensures !Clipped(TiedHistory(first, second), 0, SEVEN)
  {
    OneRowBeforeTheWindow(HashedAt(-1, "z"), TiedWindow(first, second), 0, SEVEN);
  }

  lemma TiedReads(first: string, second: string)
    requires first != "" && second != ""
    ensures Filter(TiedWindow(first, second), IsRead()) == TiedWindow(first, second)
    ensures AllHashed(TiedWindow(first, second))
  {
    FilterAll(TiedWindow(first, second), IsRead());
  }

  lemma TiedReport(first: string, second: string)
    requires first != "" && second != ""
    ensures Reliability(TiedHistory(first, second), Some(420), 0, SEVEN)
         == Measurement(0, false, 3, 3, true, [0, SEVEN, 0, 0], Latencies(TiedWindow(first, second)), 1)
  {
    TiedHistoryInside(first, second);
    TiedGaps(first, second);
    TiedReads(first, second);
    MeasuredReport(TiedWindow(first, second), false, Some(420), 0, SEVEN, 0, 3, true, [0, SEVEN, 0, 0], 1);
  }

  lemma TiedVerdict(latencies: seq<int>, p95: int)
    requires DetectionP95(latencies) == Some(p95)
    ensures var r := Measurement(0, false, 3, 3, true, [0, SEVEN, 0, 0], latencies, 1);
            r.changes == |latencies| && r.verdict == if p95 <= FRESHNESS_WINDOW then Pass else Watch
  {
    MaxOfBounds([0, SEVEN, 0, 0]);
  }

  lemma TiesArePermuted(head: seq<SourceObservation>, x: SourceObservation, y: SourceObservation)
    ensures multiset(head + [x, y]) == multiset(head + [y, x])
  {
    assert [x, y] == [x] + [y] && [y, x] == [y] + [x];
  }

  // Two tied reads decide which hashes are neighbours: in one order there is one change, seen at once,
  // and the source passes; in the other there are two, the first seen after seven hours.
  lemma TiesDecideChanges()
    ensures multiset(TiedHistory("x", "y")) == multiset(TiedHistory("y", "x"))
    ensures var one := Reliability(TiedHistory("x", "y"), Some(420), 0, SEVEN);
            one.changes == 1 && one.verdict == Pass
    ensures var two := Reliability(TiedHistory("y", "x"), Some(420), 0, SEVEN);
            two.changes == 2 && two.verdict == Watch
  {
    var head, x, y := [HashedAt(-1, "z"), HashedAt(0, "x")], HashedAt(SEVEN, "x"), HashedAt(SEVEN, "y");
    TiesArePermuted(head, x, y);
    assert TiedHistory("x", "y") == head + [x, y] && TiedHistory("y", "x") == head + [y, x];
    TiedReport("x", "y");
    TiedReport("y", "x");
    OneTiedChange();
    TwoTiedChanges();
    TiedVerdict([0], 0);
    TiedVerdict([SEVEN, 0], SEVEN);
  }

  lemma OneTiedChange()
    ensures Latencies(TiedWindow("x", "y")) == [0] && DetectionP95([0]) == Some(0)
  {
    var w := TiedWindow("x", "y");
    assert w[1..] == [HashedAt(SEVEN, "x"), HashedAt(SEVEN, "y")] && w[1..][1..] == [HashedAt(SEVEN, "y")];
    assert "x"[0] != "y"[0];
    SortedStays([0], Same());
  }

  lemma TwoTiedChanges()
    ensures Latencies(TiedWindow("y", "x")) == [SEVEN, 0] && DetectionP95([SEVEN, 0]) == Some(SEVEN)
  {
    var w := TiedWindow("y", "x");
    assert w[1..] == [HashedAt(SEVEN, "y"), HashedAt(SEVEN, "x")] && w[1..][1..] == [HashedAt(SEVEN, "x")];
    assert "x"[0] != "y"[0];
    assert [SEVEN, 0][1..] == [0] && SortBy([0], Same()) == [0];
    assert SortBy([SEVEN, 0], Same()) == [0, SEVEN];
  }
}
