// What the reliability report means, for every history.
module ReliabilityLaws {
  import opened Wrappers
  import opened Sequences
  import opened Domain
  import opened ReliabilityGate

  // ---- points on the time line ----

  ghost predicate Ascending(points: seq<Time>) {
    forall i, j :: 0 <= i < j < |points| ==> points[i] <= points[j]
  }

  lemma {:induction false} GapsCount(points: seq<Time>)
    requires points != []
    ensures |Gaps(points)| == |points| - 1
    ensures forall i :: 0 <= i < |points| - 1 ==> Gaps(points)[i] == points[i + 1] - points[i]
    ensures SumInts(Gaps(points)) == points[|points| - 1] - points[0]
  {
    if |points| > 1 {
      GapsCount(points[1..]);
      assert Gaps(points)[1..] == Gaps(points[1..]);
    }
  }

  lemma {:induction false} SumAtMost(s: seq<int>, bound: int)
    requires forall i :: 0 <= i < |s| ==> s[i] <= bound
    ensures SumInts(s) <= |s| * bound
  {
    if s != [] {
      SumAtMost(s[1..], bound);
      assert |s| * bound == |s[1..]| * bound + bound;
    }
  }

  lemma {:induction false} SumCountsLarge(s: seq<int>, limit: nat)
    requires forall i :: 0 <= i < |s| ==> s[i] >= 0
    ensures SumInts(s) >= |Filter(s, MoreThan(limit))| * limit
    ensures Filter(s, MoreThan(limit)) != [] ==> SumInts(s) > |Filter(s, MoreThan(limit))| * limit
  {
    if s != [] {
      SumCountsLarge(s[1..], limit);
      AddOneMore(|Filter(s[1..], MoreThan(limit))|, limit);
    }
  }

  lemma AddOneMore(n: nat, limit: nat)
    ensures (n + 1) * limit == n * limit + limit
  {
  }

  lemma ReadLiesInside(observations: seq<SourceObservation>, start: Time, now: Time, i: nat)
    requires start <= now && i < |Reads(observations, start, now)|
    ensures Begin(observations, start, now) <= Reads(observations, start, now)[i].At() <= now
  {
    var found := Reads(observations, start, now);
    assert found[i] in found;
    WindowContents(observations, start, now);
    ClippedMeansNothingEarlier(observations, start, now);
  }

  lemma PointsOfSorted(begin: Time, found: seq<SourceObservation>, now: Time)
    requires begin <= now && SortedBy(found, ByTime())
    requires forall i :: 0 <= i < |found| ==> begin <= found[i].At() <= now
    ensures Ascending(Points(begin, found, now))
  {
    var points := Points(begin, found, now);
    forall i, j | 0 <= i < j < |points| ensures points[i] <= points[j] {
      if 0 < i && j < |points| - 1 {
        assert ByTime()(found[i - 1]) <= ByTime()(found[j - 1]);
      }
    }
  }

  lemma PointsAscend(observations: seq<SourceObservation>, start: Time, now: Time)
    requires start <= now
    ensures Ascending(Points(Begin(observations, start, now), Reads(observations, start, now), now))
  {
    var found := Reads(observations, start, now);
    BeginIsInside(observations, start, now);
    ReadsAreSorted(observations, start, now);
    forall i | 0 <= i < |found| ensures Begin(observations, start, now) <= found[i].At() <= now {
      ReadLiesInside(observations, start, now, i);
    }
    PointsOfSorted(Begin(observations, start, now), found, now);
  }

  lemma ReadsAreSorted(observations: seq<SourceObservation>, start: Time, now: Time)
    ensures SortedBy(Reads(observations, start, now), ByTime())
  {
    WindowContents(observations, start, now);
  }

  lemma BeginIsInside(observations: seq<SourceObservation>, start: Time, now: Time)
    requires start <= now
    ensures start <= Begin(observations, start, now) <= now
  {
    ClippedMeansNothingEarlier(observations, start, now);
  }

  // ---- gap accounting ----

  // The gaps tile the measured window: none is negative and together they are exactly its length.
  lemma GapsTileTheWindow(observations: seq<SourceObservation>, start: Time, now: Time)
    ensures var gaps := WindowGaps(observations, start, now);
            && |gaps| == |Reads(observations, start, now)| + 1
            && SumInts(gaps) == now - Begin(observations, start, now)
            && (start <= now ==> forall i :: 0 <= i < |gaps| ==> gaps[i] >= 0)
  {
    var points := Points(Begin(observations, start, now), Reads(observations, start, now), now);
    GapsCount(points);
    if start <= now {
      PointsAscend(observations, start, now);
      forall i | 0 <= i < |Gaps(points)| ensures Gaps(points)[i] >= 0 {
        assert points[i] <= points[i + 1];
      }
    }
  }

  // How the report's fields hang together once a source is measured.
  ghost predicate ReportedAs(r: SourceReliability, observations: seq<SourceObservation>, cadenceMinutes: int,
                             start: Time, now: Time)
    requires cadenceMinutes > 0
  {
    && GapAndReads(r, observations, start, now)
    && r.expected == Expected(now - r.start, cadenceMinutes)
    && r.gapsOverWindow == |Filter(WindowGaps(observations, start, now), MoreThan(FRESHNESS_WINDOW))|
    && r.completion == Completion(r.successful, r.expected)
    && JudgedByGapAndCompletion(r)
  }

  ghost predicate GapAndReads(r: SourceReliability, observations: seq<SourceObservation>, start: Time, now: Time) {
    && r.start == Begin(observations, start, now)
    && r.clipped == Clipped(observations, start, now)
    && r.successful == |Reads(observations, start, now)|
    && r.longestGap == Some(MaxOf(WindowGaps(observations, start, now)))
  }

  ghost predicate JudgedByGapAndCompletion(r: SourceReliability) {
    && r.longestGap.Some?
    && (r.verdict == Stop <==>
          r.longestGap.value > STOP_GAP || (r.completion.Some? && r.completion.value < STOP_COMPLETION))
  }

  lemma MeasuredFields(observations: seq<SourceObservation>, cadence: Option<int>, start: Time, now: Time)
    requires Measured(observations, cadence)
    ensures ReportedAs(Reliability(observations, cadence, start, now), observations, cadence.value, start, now)
  {
  }

  // No gap list can hide a hole: the longest gap times the number of gaps covers the window, and
  // the gaps over 6.5 hours fit inside it.
  lemma GapListBounds(gaps: seq<int>, span: int)
    requires gaps != [] && SumInts(gaps) == span
    ensures MaxOf(gaps) * |gaps| >= span
    ensures (forall i :: 0 <= i < |gaps| ==> gaps[i] >= 0) ==>
              var over := |Filter(gaps, MoreThan(FRESHNESS_WINDOW))|;
              over * FRESHNESS_WINDOW <= span && (over > 0 ==> over * FRESHNESS_WINDOW < span)
    ensures MaxOf(gaps) <= STOP_GAP ==> |gaps| * STOP_GAP >= span
  {
    MaxOfBounds(gaps);
    SumAtMost(gaps, MaxOf(gaps));
    if forall i :: 0 <= i < |gaps| ==> gaps[i] >= 0 {
      SumCountsLarge(gaps, FRESHNESS_WINDOW);
    }
    if MaxOf(gaps) <= STOP_GAP {
      SumAtMost(gaps, STOP_GAP);
    }
  }

  lemma GapAccounting(observations: seq<SourceObservation>, cadence: Option<int>, start: Time, now: Time)
    requires Measured(observations, cadence)
    ensures var r := Reliability(observations, cadence, start, now);
            && r.longestGap.Some?
            && r.longestGap.value * (r.successful + 1) >= now - r.start
            && (start <= now ==> r.gapsOverWindow * FRESHNESS_WINDOW <= now - r.start)
            && (start <= now && r.gapsOverWindow > 0 ==> r.gapsOverWindow * FRESHNESS_WINDOW < now - r.start)
            && (r.verdict != Stop ==> (r.successful + 1) * STOP_GAP >= now - r.start)
  {
    MeasuredFields(observations, cadence, start, now);
    GapsTileTheWindow(observations, start, now);
    GapListBounds(WindowGaps(observations, start, now), now - Begin(observations, start, now));
  }

  // ---- the longest gap, defined without sorting: the longest silence ----

  // No successful read happened strictly between the two instants.
  ghost predicate Silent(observations: seq<SourceObservation>, from: Time, to: Time) {
    forall o :: o in observations && o.retrieval.Succeeded? ==> !(from < o.At() < to)
  }

  ghost predicate SilenceWithin(observations: seq<SourceObservation>, begin: Time, now: Time, from: Time, to: Time) {
    begin <= from <= to <= now && Silent(observations, from, to)
  }

  lemma {:induction false} SilenceFitsAGap(points: seq<Time>, from: Time, to: Time) returns (k: nat)
    requires Ascending(points) && |points| >= 2
    requires points[0] <= from < to <= points[|points| - 1]
    requires forall i :: 0 <= i < |points| ==> !(from < points[i] < to)
    ensures k + 1 < |points| && points[k] <= from && to <= points[k + 1]
  {
    if points[1] <= from {
      assert |points| > 2;
      k := SilenceFitsAGap(points[1..], from, to);
      k := k + 1;
    } else {
      k := 0;
    }
  }

  lemma NoPointBetween(points: seq<Time>, i: nat, t: Time)
    requires Ascending(points) && i + 1 < |points| && t in points
    ensures points[0] <= points[i] <= points[i + 1] <= points[|points| - 1]
    ensures !(points[i] < t < points[i + 1])
  {
    var j :| 0 <= j < |points| && points[j] == t;
    assert j < i || j == i || j == i + 1 || i + 1 < j;
  }

  // Between two neighbouring points there is no read.
  lemma NeighboursAreSilent(observations: seq<SourceObservation>, start: Time, now: Time, points: seq<Time>, i: nat)
    requires start <= now && i + 1 < |points|
    requires points == Points(Begin(observations, start, now), Reads(observations, start, now), now)
    ensures SilenceWithin(observations, Begin(observations, start, now), now, points[i], points[i + 1])
  {
    PointsAscend(observations, start, now);
    NoPointBetween(points, i, points[0]);
    ClippedMeansNothingEarlier(observations, start, now);
    forall o | o in observations && o.retrieval.Succeeded? ensures !(points[i] < o.At() < points[i + 1]) {
      if points[i] < o.At() < points[i + 1] {
        ReadBetweenIsFound(observations, start, now, o);
        NoPointBetween(points, i, o.At());
      }
    }
  }

  lemma ReadBetweenIsFound(observations: seq<SourceObservation>, start: Time, now: Time, o: SourceObservation)
    requires o in observations && o.retrieval.Succeeded? && start <= o.At() <= now
    ensures o.At() in Points(Begin(observations, start, now), Reads(observations, start, now), now)
  {
    WindowContents(observations, start, now);
  }

  lemma LongestSilenceOccurs(observations: seq<SourceObservation>, start: Time, now: Time)
    returns (from: Time, to: Time)
    requires start <= now
    ensures SilenceWithin(observations, Begin(observations, start, now), now, from, to)
    ensures to - from == MaxOf(WindowGaps(observations, start, now))
  {
    var points := Points(Begin(observations, start, now), Reads(observations, start, now), now);
    var gaps := WindowGaps(observations, start, now);
    GapsCount(points);
    MaxOfBounds(gaps);
    var i :| 0 <= i < |gaps| && gaps[i] == MaxOf(gaps);
    from, to := points[i], points[i + 1];
    NeighboursAreSilent(observations, start, now, points, i);
  }

  // No read is strictly inside a silence, so no point is.
  lemma NoPointInASilence(observations: seq<SourceObservation>, start: Time, now: Time, from: Time, to: Time)
    requires start <= now && SilenceWithin(observations, Begin(observations, start, now), now, from, to)
    ensures var points := Points(Begin(observations, start, now), Reads(observations, start, now), now);
            forall i :: 0 <= i < |points| ==> !(from < points[i] < to)
  {
    WindowContents(observations, start, now);
    var found := Reads(observations, start, now);
    forall i | 0 <= i < |found| ensures !(from < found[i].At() < to) {
      assert found[i] in found;
    }
  }

  lemma SilenceIsBounded(observations: seq<SourceObservation>, start: Time, now: Time, from: Time, to: Time)
    requires start <= now
    requires SilenceWithin(observations, Begin(observations, start, now), now, from, to)
    ensures to - from <= MaxOf(WindowGaps(observations, start, now))
  {
    var points := Points(Begin(observations, start, now), Reads(observations, start, now), now);
    var gaps := WindowGaps(observations, start, now);
    GapsCount(points);
    MaxOfBounds(gaps);
    PointsAscend(observations, start, now);
    if from < to {
      NoPointInASilence(observations, start, now, from, to);
      var k := SilenceFitsAGap(points, from, to);
    } else {
      assert points[0] <= points[1] && gaps[0] >= 0;
    }
  }

  // The longest gap is the longest stretch of the measured window without a successful read.
  lemma LongestGapIsLongestSilence(observations: seq<SourceObservation>, cadence: Option<int>, start: Time, now: Time)
    requires Measured(observations, cadence) && start <= now
    ensures var r := Reliability(observations, cadence, start, now);
            && r.longestGap.Some?
            && (exists from, to ::
                  SilenceWithin(observations, r.start, now, from, to) && to - from == r.longestGap.value)
            && forall from, to ::
                 SilenceWithin(observations, r.start, now, from, to) ==> to - from <= r.longestGap.value
  {
    MeasuredFields(observations, cadence, start, now);
    var begin := Begin(observations, start, now);
    var a, b := LongestSilenceOccurs(observations, start, now);
    forall from, to | SilenceWithin(observations, begin, now, from, to)
      ensures to - from <= MaxOf(WindowGaps(observations, start, now))
    {
      SilenceIsBounded(observations, start, now, from, to);
    }
  }

  // A measured source that is not told to stop was never silent for more than 18.5 hours.
  lemma NotStoppedMeansNeverSilentTooLong(observations: seq<SourceObservation>, cadence: Option<int>, start: Time,
                                          now: Time, from: Time, to: Time)
    requires Measured(observations, cadence) && start <= now
    requires Reliability(observations, cadence, start, now).verdict != Stop
    requires Begin(observations, start, now) <= from && to <= now && to - from > STOP_GAP
    ensures exists o :: o in observations && o.retrieval.Succeeded? && from < o.At() < to
  {
    LongestGapIsLongestSilence(observations, cadence, start, now);
    assert !SilenceWithin(observations, Begin(observations, start, now), now, from, to);
  }

  // ---- one more successful read ----

  function Inserted(observations: seq<SourceObservation>, i: nat, o: SourceObservation): seq<SourceObservation>
    requires i <= |observations|
  {
    observations[..i] + [o] + observations[i..]
  }

  lemma InsertedMembers(observations: seq<SourceObservation>, i: nat, o: SourceObservation)
    requires i <= |observations|
    ensures forall x :: x in Inserted(observations, i, o) <==> x == o || x in observations
  {
    assert observations == observations[..i] + observations[i..];
  }

  lemma CountByFilter(observations: seq<SourceObservation>, start: Time, now: Time, p: SourceObservation -> bool)
    requires forall x :: p(x) <==> start <= x.At() <= now && x.retrieval.Succeeded?
    ensures |Reads(observations, start, now)| == |Filter(observations, p)|
  {
    FilterAnd(History(observations), InWindow(start, now), IsRead(), p);
    FilterSort(observations, ByTime(), p);
    SortCorrect(Filter(observations, p), ByTime());
  }

  lemma InsertedCount(observations: seq<SourceObservation>, i: nat, o: SourceObservation, start: Time, now: Time)
    requires i <= |observations| && o.retrieval.Succeeded? && start <= o.At() <= now
    ensures |Reads(Inserted(observations, i, o), start, now)| == |Reads(observations, start, now)| + 1
  {
    var p := (x: SourceObservation) => start <= x.At() <= now && x.retrieval.Succeeded?;
    CountByFilter(observations, start, now, p);
    CountByFilter(Inserted(observations, i, o), start, now, p);
    OneMoreSelected(observations, i, o, p);
  }

  lemma OneMoreSelected(observations: seq<SourceObservation>, i: nat, o: SourceObservation,
                        p: SourceObservation -> bool)
    requires i <= |observations| && p(o)
    ensures |Filter(Inserted(observations, i, o), p)| == |Filter(observations, p)| + 1
  {
    assert observations == observations[..i] + observations[i..];
    FilterConcat(observations[..i], observations[i..], p);
    FilterConcat(observations[..i] + [o], observations[i..], p);
    FilterConcat(observations[..i], [o], p);
  }

  // A longer history of reads only breaks silences up.
  lemma MoreReadsLessSilence(few: seq<SourceObservation>, many: seq<SourceObservation>, start: Time, now: Time)
    requires start <= now
    requires forall o :: o in few ==> o in many
    requires Begin(few, start, now) == Begin(many, start, now)
    ensures MaxOf(WindowGaps(many, start, now)) <= MaxOf(WindowGaps(few, start, now))
  {
    var from, to := LongestSilenceOccurs(many, start, now);
    SilenceIsBounded(few, start, now, from, to);
  }

  // The start of the window does not depend on the new read: the window holds a row already or the
  // history reaches back beyond it, and in a clipped window the read is no earlier than the first row.
  ghost predicate StartStays(observations: seq<SourceObservation>, start: Time, now: Time, o: SourceObservation) {
    && (Inside(observations, start, now) != [] || SomeBefore(observations, start))
    && (Clipped(observations, start, now) ==> Begin(observations, start, now) <= o.At())
  }

  lemma BeginStays(observations: seq<SourceObservation>, start: Time, now: Time, i: nat, o: SourceObservation)
    requires i <= |observations| && start <= o.At() <= now && StartStays(observations, start, now, o)
    ensures Begin(Inserted(observations, i, o), start, now) == Begin(observations, start, now)
    ensures observations != []
  {
    InsertedMembers(observations, i, o);
    ClippedMeansNothingEarlier(observations, start, now);
    ClippedMeansNothingEarlier(Inserted(observations, i, o), start, now);
    WindowContents(observations, start, now);
    if Inside(observations, start, now) != [] {
      assert Inside(observations, start, now)[0] in Inside(observations, start, now);
    }
  }

  // As long as it does not move the start of the window, one more successful read never lengthens
  // the longest gap, never lowers the completion and never turns a verdict into Stop.
  lemma AnotherReadNeverHurts(observations: seq<SourceObservation>, cadence: Option<int>, start: Time, now: Time,
                              i: nat, o: SourceObservation)
    requires cadence.Some? && cadence.value > 0 && i <= |observations|
    requires o.retrieval.Succeeded? && start <= o.At() <= now && StartStays(observations, start, now, o)
    ensures var before := Reliability(observations, cadence, start, now);
            var after := Reliability(Inserted(observations, i, o), cadence, start, now);
            && before.start == after.start && before.expected == after.expected
            && after.successful == before.successful + 1
            && before.longestGap.Some? && after.longestGap.Some?
            && after.longestGap.value <= before.longestGap.value
            && (after.completion.Some? <==> before.completion.Some?)
            && (before.completion.Some? ==> before.completion.value <= after.completion.value)
            && (after.verdict == Stop ==> before.verdict == Stop)
  {
    var more := Inserted(observations, i, o);
    BeginStays(observations, start, now, i, o);
    MeasuredFields(observations, cadence, start, now);
    MeasuredFields(more, cadence, start, now);
    AnotherReadByFields(observations, cadence.value, start, now, i, o,
                        Reliability(observations, cadence, start, now), Reliability(more, cadence, start, now));
  }

  lemma AnotherReadByFields(observations: seq<SourceObservation>, cadenceMinutes: int, start: Time, now: Time,
                            i: nat, o: SourceObservation, before: SourceReliability, after: SourceReliability)
    requires cadenceMinutes > 0 && i <= |observations| && o.retrieval.Succeeded? && start <= o.At() <= now
    requires ReportedAs(before, observations, cadenceMinutes, start, now)
    requires ReportedAs(after, Inserted(observations, i, o), cadenceMinutes, start, now)
    requires before.start == after.start
    ensures before.expected == after.expected
    ensures after.successful == before.successful + 1
    ensures after.longestGap.value <= before.longestGap.value
    ensures after.completion.Some? <==> before.completion.Some?
    ensures before.completion.Some? ==> before.completion.value <= after.completion.value
    ensures after.verdict == Stop ==> before.verdict == Stop
  {
    AnotherReadShortensGaps(observations, start, now, i, o, before, after);
    ExpectedNonNegative(now - before.start, cadenceMinutes);
    NeverHurtsByFields(before, after);
  }

  lemma AnotherReadShortensGaps(observations: seq<SourceObservation>, start: Time, now: Time, i: nat,
                                o: SourceObservation, before: SourceReliability, after: SourceReliability)
    requires i <= |observations| && o.retrieval.Succeeded? && start <= o.At() <= now
    requires GapAndReads(before, observations, start, now)
    requires GapAndReads(after, Inserted(observations, i, o), start, now) && before.start == after.start
    ensures after.successful == before.successful + 1 && before.start <= now
    ensures after.longestGap.value <= before.longestGap.value
  {
    BeginIsInside(observations, start, now);
    OnlyOneIsEarlier(observations, i, o, now);
    InsertedCount(observations, i, o, start, now);
    MoreReadsLessSilence(observations, Inserted(observations, i, o), start, now);
  }

  lemma ExpectedNonNegative(span: nat, cadenceMinutes: int)
    requires cadenceMinutes > 0
    ensures Expected(span, cadenceMinutes) >= 0
  {
  }

  lemma NeverHurtsByFields(before: SourceReliability, after: SourceReliability)
    requires JudgedByGapAndCompletion(before) && JudgedByGapAndCompletion(after)
    requires before.completion == Completion(before.successful, before.expected)
    requires after.completion == Completion(after.successful, after.expected)
    requires before.expected == after.expected >= 0 && after.successful == before.successful + 1
    requires after.longestGap.value <= before.longestGap.value
    ensures after.completion.Some? <==> before.completion.Some?
    ensures before.completion.Some? ==> before.completion.value <= after.completion.value
    ensures after.verdict == Stop ==> before.verdict == Stop
  {
  }

  // ---- a read that moves the start back ----

  // Where the first silence of the window ends: at the first successful read, or now.
  function FirstReadOrNow(observations: seq<SourceObservation>, start: Time, now: Time): Time {
    var found := Reads(observations, start, now);
    if found == [] then now else found[0].At()
  }

  lemma NothingReadBefore(observations: seq<SourceObservation>, start: Time, now: Time)
    requires start <= now
    ensures var first := FirstReadOrNow(observations, start, now);
            && Begin(observations, start, now) <= first <= now
            && (first < now ==> exists o :: o in observations && o.retrieval.Succeeded? && o.At() == first)
            && forall o :: o in observations && o.retrieval.Succeeded? && start <= o.At() <= now ==> first <= o.At()
  {
    var found := Reads(observations, start, now);
    WindowContents(observations, start, now);
    ClippedMeansNothingEarlier(observations, start, now);
    if found != [] {
      assert found[0] in found;
      forall o | o in found ensures found[0].At() <= o.At() {
        var k :| 0 <= k < |found| && found[k] == o;
        assert k == 0 || ByTime()(found[0]) <= ByTime()(found[k]);
      }
    }
  }

  lemma BeginMovesBack(observations: seq<SourceObservation>, start: Time, now: Time, i: nat, o: SourceObservation)
    requires i <= |observations| && Clipped(observations, start, now)
    requires start <= o.At() < Begin(observations, start, now)
    ensures Begin(Inserted(observations, i, o), start, now) == o.At() && o.At() <= now
    ensures Clipped(Inserted(observations, i, o), start, now)
  {
    InsertedMembers(observations, i, o);
    ClippedMeansNothingEarlier(observations, start, now);
    ClippedMeansNothingEarlier(Inserted(observations, i, o), start, now);
    assert o in Inserted(observations, i, o);
  }

  // Every read of `many` that `few` lacks lies at or before the start of the window of `many`.
  ghost predicate OnlyEarlier(few: seq<SourceObservation>, many: seq<SourceObservation>, begin: Time) {
    && (forall x :: x in few ==> x in many)
    && forall x :: x in many ==> x in few || x.At() <= begin
  }

  lemma OnlyOneIsEarlier(observations: seq<SourceObservation>, i: nat, o: SourceObservation, begin: Time)
    requires i <= |observations| && o.At() <= begin
    ensures OnlyEarlier(observations, Inserted(observations, i, o), begin)
  {
    InsertedMembers(observations, i, o);
  }

  // Moving the start of a clipped window back stretches its first silence and leaves the others.
  lemma FirstSilenceStretches(few: seq<SourceObservation>, many: seq<SourceObservation>, start: Time, now: Time)
    requires start <= now && Clipped(few, start, now) && Begin(many, start, now) <= Begin(few, start, now)
    requires OnlyEarlier(few, many, Begin(many, start, now))
    ensures var was := MaxOf(WindowGaps(few, start, now));
            var stretch := FirstReadOrNow(few, start, now) - Begin(many, start, now);
            MaxOf(WindowGaps(many, start, now)) == if stretch > was then stretch else was
  {
    FirstSilenceIsSilent(few, many, start, now);
    SilenceIsBounded(many, start, now, Begin(many, start, now), FirstReadOrNow(few, start, now));
    LaterSilencesStay(few, many, start, now);
    var from, to := LongestSilenceOccurs(many, start, now);
    StretchedSilenceIsBounded(few, many, start, now, from, to);
  }

  lemma FirstSilenceIsSilent(few: seq<SourceObservation>, many: seq<SourceObservation>, start: Time, now: Time)
    requires start <= now && Clipped(few, start, now) && Begin(many, start, now) <= Begin(few, start, now)
    requires OnlyEarlier(few, many, Begin(many, start, now))
    ensures SilenceWithin(many, Begin(many, start, now), now, Begin(many, start, now), FirstReadOrNow(few, start, now))
  {
    ClippedMeansNothingEarlier(few, start, now);
    NothingReadBefore(few, start, now);
  }

  lemma LaterSilencesStay(few: seq<SourceObservation>, many: seq<SourceObservation>, start: Time, now: Time)
    requires start <= now && Clipped(few, start, now) && Begin(many, start, now) <= Begin(few, start, now)
    requires OnlyEarlier(few, many, Begin(many, start, now))
    ensures MaxOf(WindowGaps(few, start, now)) <= MaxOf(WindowGaps(many, start, now))
  {
    var from, to := LongestSilenceOccurs(few, start, now);
    SilenceIsBounded(many, start, now, from, to);
  }

  lemma StretchedSilenceIsBounded(few: seq<SourceObservation>, many: seq<SourceObservation>, start: Time, now: Time,
                                  from: Time, to: Time)
    requires start <= now && Clipped(few, start, now) && Begin(many, start, now) <= Begin(few, start, now)
    requires forall x :: x in few ==> x in many
    requires SilenceWithin(many, Begin(many, start, now), now, from, to)
    ensures || to - from <= MaxOf(WindowGaps(few, start, now))
            || to - from <= FirstReadOrNow(few, start, now) - Begin(many, start, now)
  {
    ClippedMeansNothingEarlier(few, start, now);
    NothingReadBefore(few, start, now);
    if Begin(few, start, now) <= from {
      SilenceIsBounded(few, start, now, from, to);
    }
  }

  // The first silence is `stretch` long now and the others are as they were.
  ghost predicate StretchedTo(before: SourceReliability, after: SourceReliability, stretch: int) {
    && before.longestGap.Some? && after.longestGap.Some?
    && after.longestGap.value == (if stretch > before.longestGap.value then stretch else before.longestGap.value)
    && (after.verdict == Stop <==>
          || before.longestGap.value > STOP_GAP || stretch > STOP_GAP
          || (after.completion.Some? && after.completion.value < STOP_COMPLETION))
  }

  // In a clipped window a read before its first row, but not before the window, moves the start to
  // itself. The longest gap becomes the larger of the old one and the time from that read to the
  // first successful one (or now), and the verdict is Stop exactly when that gap or the completion
  // over the longer window says so.
  lemma EarlierReadExactly(observations: seq<SourceObservation>, cadence: Option<int>, start: Time, now: Time,
                           i: nat, o: SourceObservation)
    requires cadence.Some? && cadence.value > 0 && i <= |observations| && o.retrieval.Succeeded?
    requires Clipped(observations, start, now) && start <= o.At() < Begin(observations, start, now)
    ensures var before := Reliability(observations, cadence, start, now);
            var after := Reliability(Inserted(observations, i, o), cadence, start, now);
            && after.start == o.At() && after.clipped && after.successful == before.successful + 1
            && after.expected == Expected(now - o.At(), cadence.value)
            && after.completion == Completion(after.successful, after.expected)
            && StretchedTo(before, after, FirstReadOrNow(observations, start, now) - o.At())
  {
    var more := Inserted(observations, i, o);
    MeasuredFields(observations, cadence, start, now);
    MeasuredFields(more, cadence, start, now);
    EarlierReadByFields(observations, cadence.value, start, now, i, o,
                        Reliability(observations, cadence, start, now), Reliability(more, cadence, start, now));
  }

  lemma EarlierReadByFields(observations: seq<SourceObservation>, cadenceMinutes: int, start: Time, now: Time,
                            i: nat, o: SourceObservation, before: SourceReliability, after: SourceReliability)
    requires cadenceMinutes > 0 && i <= |observations| && o.retrieval.Succeeded?
    requires Clipped(observations, start, now) && start <= o.At() < Begin(observations, start, now)
    requires GapAndReads(before, observations, start, now)
    requires ReportedAs(after, Inserted(observations, i, o), cadenceMinutes, start, now)
    ensures after.start == o.At() && after.clipped && after.successful == before.successful + 1
    ensures after.expected == Expected(now - o.At(), cadenceMinutes)
    ensures after.completion == Completion(after.successful, after.expected)
    ensures StretchedTo(before, after, FirstReadOrNow(observations, start, now) - o.At())
  {
    EarlierReadStretches(observations, start, now, i, o, before, after);
  }

  lemma EarlierReadStretches(observations: seq<SourceObservation>, start: Time, now: Time, i: nat, o: SourceObservation,
                             before: SourceReliability, after: SourceReliability)
    requires i <= |observations| && o.retrieval.Succeeded?
    requires Clipped(observations, start, now) && start <= o.At() < Begin(observations, start, now)
    requires GapAndReads(before, observations, start, now)
    requires GapAndReads(after, Inserted(observations, i, o), start, now) && JudgedByGapAndCompletion(after)
    ensures after.start == o.At() && after.clipped && after.successful == before.successful + 1
    ensures StretchedTo(before, after, FirstReadOrNow(observations, start, now) - o.At())
  {
    BeginMovesBack(observations, start, now, i, o);
    OnlyOneIsEarlier(observations, i, o, o.At());
    InsertedCount(observations, i, o, start, now);
    StretchedByFields(observations, Inserted(observations, i, o), start, now, before, after, o.At());
  }

  lemma StretchedByFields(few: seq<SourceObservation>, many: seq<SourceObservation>, start: Time, now: Time,
                          before: SourceReliability, after: SourceReliability, begin: Time)
    requires start <= now && Clipped(few, start, now) && Begin(many, start, now) == begin <= Begin(few, start, now)
    requires OnlyEarlier(few, many, begin)
    requires GapAndReads(before, few, start, now)
    requires GapAndReads(after, many, start, now) && JudgedByGapAndCompletion(after)
    ensures StretchedTo(before, after, FirstReadOrNow(few, start, now) - begin)
  {
    FirstSilenceStretches(few, many, start, now);
  }

  lemma OneGapWithoutReads(observations: seq<SourceObservation>, start: Time, now: Time)
    requires Inside(observations, start, now) == []
    ensures Begin(observations, start, now) == start && Reads(observations, start, now) == []
    ensures WindowGaps(observations, start, now) == [now - start]
  {
    assert Reads(observations, start, now) == [];
    var points := Points(start, [], now);
    assert points == [start, now];
    assert points[1..] == [now];
    assert Gaps([now]) == [];
  }

  lemma EmptyWindowBegins(observations: seq<SourceObservation>, start: Time, now: Time, i: nat, o: SourceObservation)
    requires i <= |observations| && o.retrieval.Succeeded? && start <= o.At() <= now
    requires Inside(observations, start, now) == [] && !SomeBefore(observations, start)
    ensures Begin(observations, start, now) == start && |Reads(observations, start, now)| == 0
    ensures Begin(Inserted(observations, i, o), start, now) == o.At()
            && Clipped(Inserted(observations, i, o), start, now)
    ensures MaxOf(WindowGaps(observations, start, now)) == now - start
    ensures MaxOf(WindowGaps(Inserted(observations, i, o), start, now)) == now - o.At()
  {
    var more := Inserted(observations, i, o);
    InsertedMembers(observations, i, o);
    WindowContents(observations, start, now);
    ClippedMeansNothingEarlier(more, start, now);
    assert o in more;
    assert forall x :: x in observations ==> x.At() > now;
    SilenceIsBounded(observations, start, now, start, now);
    var a, b := LongestSilenceOccurs(observations, start, now);
    SilenceIsBounded(more, start, now, o.At(), now);
    var from, to := LongestSilenceOccurs(more, start, now);
  }

  // Into an empty window with nothing before it, the first read starts the measurement. It is a Stop
  // exactly when it already lies more than 18.5 hours or at least two cadences back; a source never
  // observed goes from Unknown to that, and any other was to stop before if it is now.
  lemma FirstReadOfAnEmptyWindow(observations: seq<SourceObservation>, cadence: Option<int>, start: Time, now: Time,
                                 i: nat, o: SourceObservation)
    requires cadence.Some? && cadence.value > 0 && i <= |observations|
    requires o.retrieval.Succeeded? && start <= o.At() <= now
    requires Inside(observations, start, now) == [] && !SomeBefore(observations, start)
    ensures var before := Reliability(observations, cadence, start, now);
            var after := Reliability(Inserted(observations, i, o), cadence, start, now);
            && after.start == o.At() && after.clipped && after.successful == 1
            && after.longestGap == Some(now - o.At())
            && (after.verdict == Stop <==>
                  now - o.At() > STOP_GAP || now - o.At() >= 2 * (cadence.value * MICROS_PER_MINUTE))
            && (before.verdict == Unknown <==> observations == [])
            && (observations != [] && after.verdict == Stop ==> before.verdict == Stop)
  {
    FirstReadStarts(observations, cadence, start, now, i, o);
    UnknownMeansUnmeasured(observations, cadence, start, now);
    if observations != [] {
      EmptyWindowStops(observations, cadence, start, now, o.At());
    }
  }

  lemma FirstReadStarts(observations: seq<SourceObservation>, cadence: Option<int>, start: Time, now: Time,
                        i: nat, o: SourceObservation)
    requires cadence.Some? && cadence.value > 0 && i <= |observations|
    requires o.retrieval.Succeeded? && start <= o.At() <= now
    requires Inside(observations, start, now) == [] && !SomeBefore(observations, start)
    ensures var after := Reliability(Inserted(observations, i, o), cadence, start, now);
            && after.start == o.At() && after.clipped && after.successful == 1
            && after.longestGap == Some(now - o.At())
            && (after.verdict == Stop <==>
                  now - o.At() > STOP_GAP || now - o.At() >= 2 * (cadence.value * MICROS_PER_MINUTE))
  {
    var more := Inserted(observations, i, o);
    EmptyWindowBegins(observations, start, now, i, o);
    InsertedCount(observations, i, o, start, now);
    MeasuredFields(more, cadence, start, now);
    OneReadStops(Reliability(more, cadence, start, now), o.At(), now, cadence.value);
  }

  lemma EmptyWindowStops(observations: seq<SourceObservation>, cadence: Option<int>, start: Time, now: Time, at: Time)
    requires Measured(observations, cadence) && start <= at <= now && Inside(observations, start, now) == []
    ensures now - at > STOP_GAP || now - at >= 2 * (cadence.value * MICROS_PER_MINUTE) ==>
              Reliability(observations, cadence, start, now).verdict == Stop
  {
    OneGapWithoutReads(observations, start, now);
    MeasuredFields(observations, cadence, start, now);
    NoReadStops(Reliability(observations, cadence, start, now), start, now, at, cadence.value);
  }

  lemma UnknownMeansUnmeasured(observations: seq<SourceObservation>, cadence: Option<int>, start: Time, now: Time)
    requires cadence.Some? && cadence.value > 0
    ensures Reliability(observations, cadence, start, now).verdict == Unknown <==> observations == []
  {
  }

  lemma OneReadStops(after: SourceReliability, at: Time, now: Time, cadenceMinutes: int)
    requires cadenceMinutes > 0 && at <= now && JudgedByGapAndCompletion(after) && after.longestGap == Some(now - at)
    requires after.completion == Completion(1, Expected(now - at, cadenceMinutes))
    ensures after.verdict == Stop <==>
            now - at > STOP_GAP || now - at >= 2 * (cadenceMinutes * MICROS_PER_MINUTE)
  {
    OneReadCompletion(now - at, cadenceMinutes);
  }

  lemma NoReadStops(before: SourceReliability, start: Time, now: Time, at: Time, cadenceMinutes: int)
    requires cadenceMinutes > 0 && start <= at <= now && JudgedByGapAndCompletion(before)
    requires before.longestGap == Some(now - start)
    requires before.completion == Completion(0, Expected(now - start, cadenceMinutes))
    ensures now - at > STOP_GAP || now - at >= 2 * (cadenceMinutes * MICROS_PER_MINUTE) ==> before.verdict == Stop
  {
    if now - at >= 2 * (cadenceMinutes * MICROS_PER_MINUTE) {
      NoReadCompletion(now - start, now - at, cadenceMinutes);
    }
  }

  lemma OneReadCompletion(span: nat, cadenceMinutes: int)
    requires cadenceMinutes > 0
    ensures var done := Completion(1, Expected(span, cadenceMinutes));
            done.Some? && done.value < STOP_COMPLETION <==> span >= 2 * (cadenceMinutes * MICROS_PER_MINUTE)
  {
    var unit := cadenceMinutes * MICROS_PER_MINUTE;
    var e := Expected(span, cadenceMinutes);
    QuotientAtLeastTwo(span, unit);
    if e >= 2 {
      assert 100.0 / e as real <= 50.0;
    }
  }

  lemma QuotientAtLeastTwo(span: nat, unit: nat)
    requires unit > 0
    ensures span / unit >= 2 <==> span >= 2 * unit
  {
    var q, r := span / unit, span % unit;
    assert span == q * unit + r;
    if q <= 1 {
      assert q * unit <= unit;
    } else {
      assert q * unit >= 2 * unit;
    }
  }

  lemma NoReadCompletion(span: nat, shorter: nat, cadenceMinutes: int)
    requires cadenceMinutes > 0 && shorter <= span && shorter >= 2 * (cadenceMinutes * MICROS_PER_MINUTE)
    ensures Completion(0, Expected(span, cadenceMinutes)) == Some(0.0)
  {
    QuotientAtLeastTwo(span, cadenceMinutes * MICROS_PER_MINUTE);
  }

  function ReadAt(at: Time): SourceObservation {
    SourceObservation(0, Provenance(SourceIdentity(0, "u", "a"), at, None, "p", "v"), Fresh, Succeeded,
                      ExtractionNotAttempted, None, None, ["r"], None, None)
  }

  // One read at the very end of a day: nothing is expected yet and no gap is open.
  lemma OneLateRead(now: Time)
    requires now >= 0
    ensures var late := [ReadAt(now)];
            && Clipped(late, 0, now) && Begin(late, 0, now) == now && FirstReadOrNow(late, 0, now) == now
            && Reliability(late, Some(1440), 0, now).verdict != Stop
  {
    var late := [ReadAt(now)];
    assert ReadAt(now) in late;
    ClippedMeansNothingEarlier(late, 0, now);
    NothingReadBefore(late, 0, now);
    var from, to := LongestSilenceOccurs(late, 0, now);
    MeasuredFields(late, Some(1440), 0, now);
  }

  // Clipping is the exception: an older first read moves the start back and can cause a Stop.
  lemma EarlierFirstReadCanStop()
    ensures var late := [ReadAt(20 * MICROS_PER_HOUR)];
            var both := Inserted(late, 0, ReadAt(MICROS_PER_HOUR));
            && Reliability(late, Some(1440), 0, 20 * MICROS_PER_HOUR).verdict != Stop
            && Reliability(both, Some(1440), 0, 20 * MICROS_PER_HOUR).verdict == Stop
  {
    OneLateRead(20 * MICROS_PER_HOUR);
    EarlierReadExactly([ReadAt(20 * MICROS_PER_HOUR)], Some(1440), 0, 20 * MICROS_PER_HOUR, 0, ReadAt(MICROS_PER_HOUR));
  }
}
