// One more read wherever it was made, inside the window or outside it, and exactly when it hurts.
module ReliabilityOutside {
  import opened Wrappers
  import opened Sequences
  import opened Domain
  import opened ReliabilityGate
  import opened ReliabilityLaws
  import opened ReliabilityOrder

  lemma OutsideStaysOutside(observations: seq<SourceObservation>, start: Time, now: Time, i: nat, o: SourceObservation)
    requires i <= |observations| && !(start <= o.At() <= now)
    ensures Inside(Inserted(observations, i, o), start, now) == Inside(observations, start, now)
  {
    var head, tail := observations[..i], observations[i..];
    assert observations == head + tail;
    InsideIsSortedSelection(observations, start, now);
    InsideIsSortedSelection(Inserted(observations, i, o), start, now);
    FilterSkips(head, o, tail, InWindow(start, now));
  }

  // A row outside the window, read or failed, changes nothing about an observed source unless it
  // is the first to precede a window that holds a row.
  lemma OutsideRowChangesNothing(observations: seq<SourceObservation>, cadence: Option<int>, start: Time, now: Time,
                                 i: nat, o: SourceObservation)
    requires cadence.Some? ==> cadence.value > 0
    requires i <= |observations| && observations != [] && !(start <= o.At() <= now)
    requires !(Clipped(observations, start, now) && o.At() < start)
    ensures Reliability(Inserted(observations, i, o), cadence, start, now)
         == Reliability(observations, cadence, start, now)
  {
    OutsideStaysOutside(observations, start, now, i, o);
    InsertedMembers(observations, i, o);
    ClippedByTwoFacts(observations, start, now);
    ClippedByTwoFacts(Inserted(observations, i, o), start, now);
  }

  // The first row before a clipped window unclips it: the window is measured from its start.
  lemma UnclippedByAnEarlierRow(observations: seq<SourceObservation>, start: Time, now: Time, i: nat,
                                o: SourceObservation)
    requires i <= |observations| && Clipped(observations, start, now) && o.At() < start
    ensures Begin(Inserted(observations, i, o), start, now) == start
    ensures !Clipped(Inserted(observations, i, o), start, now)
    ensures Reads(Inserted(observations, i, o), start, now) == Reads(observations, start, now)
  {
    OutsideStaysOutside(observations, start, now, i, o);
    InsertedMembers(observations, i, o);
    ClippedByTwoFacts(Inserted(observations, i, o), start, now);
    assert o in Inserted(observations, i, o);
  }

  // Before a clipped window a read moves the start back to the window's own. It counts no read more;
  // the longest gap becomes the larger of the old one and the time to the first successful read.
  lemma ReadBeforeTheWindowExactly(observations: seq<SourceObservation>, cadence: Option<int>, start: Time, now: Time,
                                   i: nat, o: SourceObservation)
    requires cadence.Some? && cadence.value > 0 && i <= |observations|
    requires Clipped(observations, start, now) && o.At() < start <= now
    ensures var before := Reliability(observations, cadence, start, now);
            var after := Reliability(Inserted(observations, i, o), cadence, start, now);
            && after.start == start && !after.clipped && after.successful == before.successful
            && after.expected == Expected(now - start, cadence.value)
            && after.completion == Completion(after.successful, after.expected)
            && StretchedTo(before, after, FirstReadOrNow(observations, start, now) - start)
  {
    var more := Inserted(observations, i, o);
    MeasuredFields(observations, cadence, start, now);
    MeasuredFields(more, cadence, start, now);
    ReadBeforeByFields(observations, cadence.value, start, now, i, o,
                       Reliability(observations, cadence, start, now), Reliability(more, cadence, start, now));
  }

  lemma ReadBeforeByFields(observations: seq<SourceObservation>, cadenceMinutes: int, start: Time, now: Time,
                           i: nat, o: SourceObservation, before: SourceReliability, after: SourceReliability)
    requires cadenceMinutes > 0 && i <= |observations|
    requires Clipped(observations, start, now) && o.At() < start <= now
    requires GapAndReads(before, observations, start, now)
    requires ReportedAs(after, Inserted(observations, i, o), cadenceMinutes, start, now)
    ensures after.start == start && !after.clipped && after.successful == before.successful
    ensures after.expected == Expected(now - start, cadenceMinutes)
    ensures after.completion == Completion(after.successful, after.expected)
    ensures StretchedTo(before, after, FirstReadOrNow(observations, start, now) - start)
  {
    ReadBeforeStretches(observations, start, now, i, o, before, after);
  }

  lemma ReadBeforeStretches(observations: seq<SourceObservation>, start: Time, now: Time, i: nat, o: SourceObservation,
                            before: SourceReliability, after: SourceReliability)
    requires i <= |observations| && Clipped(observations, start, now) && o.At() < start <= now
    requires GapAndReads(before, observations, start, now)
    requires GapAndReads(after, Inserted(observations, i, o), start, now) && JudgedByGapAndCompletion(after)
    ensures after.start == start && !after.clipped && after.successful == before.successful
    ensures StretchedTo(before, after, FirstReadOrNow(observations, start, now) - start)
  {
    UnclippedByAnEarlierRow(observations, start, now, i, o);
    OnlyOneIsEarlier(observations, i, o, start);
    BeginIsInside(observations, start, now);
    StretchedByFields(observations, Inserted(observations, i, o), start, now, before, after, start);
  }

  // A read before the window can cause a Stop as well, since it unclips the window.
  lemma ReadBeforeTheWindowCanStop()
    ensures var late := [ReadAt(20 * MICROS_PER_HOUR)];
            && Reliability(late, Some(1440), 0, 20 * MICROS_PER_HOUR).verdict != Stop
            && Reliability(Inserted(late, 0, ReadAt(-1)), Some(1440), 0, 20 * MICROS_PER_HOUR).verdict == Stop
  {
    OneLateRead(20 * MICROS_PER_HOUR);
    ReadBeforeTheWindowExactly([ReadAt(20 * MICROS_PER_HOUR)], Some(1440), 0, 20 * MICROS_PER_HOUR, 0, ReadAt(-1));
  }

  // The first row of a source, outside the window, starts a measurement of the empty window.
  lemma FirstRowOutsideTheWindow(cadence: Option<int>, start: Time, now: Time, o: SourceObservation)
    requires cadence.Some? && cadence.value > 0 && !(start <= o.At() <= now)
    ensures var before, after := Reliability([], cadence, start, now), Reliability([o], cadence, start, now);
            && before.verdict == Unknown
            && after.start == start && !after.clipped && after.recorded == 0 && after.successful == 0
            && after.longestGap == Some(now - start)
            && after.completion == Completion(0, Expected(now - start, cadence.value))
            && (after.verdict == Stop <==> now - start > STOP_GAP || Expected(now - start, cadence.value) != 0)
  {
    OutsideStaysOutside([], start, now, 0, o);
    assert Inserted([], 0, o) == [o];
    OneGapWithoutReads([o], start, now);
    MeasuredFields([o], cadence, start, now);
  }

  // ---- exactly when one more successful read hurts ----

  // Where the window is measured from once a read has moved its start, and the reads it then holds.
  function MovedStart(start: Time, now: Time, o: SourceObservation): Time {
    if start <= o.At() <= now then o.At() else start
  }

  function ReadsWith(observations: seq<SourceObservation>, start: Time, now: Time, o: SourceObservation): nat {
    |Reads(observations, start, now)| + if start <= o.At() <= now then 1 else 0
  }

  // The first silence from the moved start, or the completion since then, already is a Stop.
  ghost predicate StopsFrom(from: Time, first: Time, now: Time, found: nat, cadenceMinutes: int)
    requires cadenceMinutes > 0
  {
    first - from > STOP_GAP || IsLow(Completion(found, Expected(now - from, cadenceMinutes)))
  }

  predicate IsLow(completion: Option<real>) { completion.Some? && completion.value < STOP_COMPLETION }

  // The read moves the start: it is the first row of the source, or precedes a clipped window's first row.
  ghost predicate MovesTheStart(observations: seq<SourceObservation>, start: Time, now: Time, o: SourceObservation) {
    observations == [] || (Clipped(observations, start, now) && o.At() < Begin(observations, start, now))
  }

  lemma FirstReadInsideHurts(cadence: Option<int>, start: Time, now: Time, o: SourceObservation)
    requires cadence.Some? && cadence.value > 0 && o.retrieval.Succeeded? && start <= o.At() <= now
    ensures Reliability([o], cadence, start, now).verdict == Stop <==>
            StopsFrom(o.At(), now, now, 1, cadence.value)
  {
    assert Inserted([], 0, o) == [o];
    EmptyWindowBegins([], start, now, 0, o);
    InsertedCount([], 0, o, start, now);
    MeasuredFields([o], cadence, start, now);
  }

  lemma FirstReadOutsideHurts(cadence: Option<int>, start: Time, now: Time, o: SourceObservation)
    requires cadence.Some? && cadence.value > 0 && !(start <= o.At() <= now)
    ensures Reliability([o], cadence, start, now).verdict == Stop <==>
            StopsFrom(start, now, now, 0, cadence.value)
  {
    FirstRowOutsideTheWindow(cadence, start, now, o);
  }

  lemma ShortGapsUnlessStopped(observations: seq<SourceObservation>, cadence: Option<int>, start: Time, now: Time)
    requires cadence.Some? && cadence.value > 0 && Clipped(observations, start, now)
    requires Reliability(observations, cadence, start, now).verdict != Stop
    ensures Reliability(observations, cadence, start, now).longestGap.Some?
    ensures Reliability(observations, cadence, start, now).longestGap.value <= STOP_GAP
  {
    MeasuredFields(observations, cadence, start, now);
  }

  lemma StretchedHurts(before: SourceReliability, after: SourceReliability, from: Time, first: Time, now: Time,
                       cadenceMinutes: int)
    requires cadenceMinutes > 0 && StretchedTo(before, after, first - from)
    requires before.longestGap.value <= STOP_GAP
    requires after.expected == Expected(now - from, cadenceMinutes)
    requires after.completion == Completion(after.successful, after.expected)
    ensures after.verdict == Stop <==> StopsFrom(from, first, now, after.successful, cadenceMinutes)
  {
  }

  lemma EarlierReadHurts(observations: seq<SourceObservation>, cadence: Option<int>, start: Time, now: Time,
                         i: nat, o: SourceObservation, found: nat)
    requires cadence.Some? && cadence.value > 0 && i <= |observations| && o.retrieval.Succeeded?
    requires Clipped(observations, start, now) && start <= o.At() < Begin(observations, start, now)
    requires Reliability(observations, cadence, start, now).verdict != Stop
    requires found == |Reads(Inserted(observations, i, o), start, now)|
    ensures Reliability(Inserted(observations, i, o), cadence, start, now).verdict == Stop <==>
            StopsFrom(o.At(), FirstReadOrNow(observations, start, now), now, found, cadence.value)
  {
    var before := Reliability(observations, cadence, start, now);
    MeasuredFields(observations, cadence, start, now);
    MeasuredFields(Inserted(observations, i, o), cadence, start, now);
    EarlierReadHurtsByFields(observations, cadence.value, start, now, i, o, before,
                             Reliability(Inserted(observations, i, o), cadence, start, now));
  }

  lemma EarlierReadHurtsByFields(observations: seq<SourceObservation>, cadenceMinutes: int, start: Time, now: Time,
                                 i: nat, o: SourceObservation, before: SourceReliability, after: SourceReliability)
    requires cadenceMinutes > 0 && i <= |observations| && o.retrieval.Succeeded?
    requires Clipped(observations, start, now) && start <= o.At() < Begin(observations, start, now)
    requires GapAndReads(before, observations, start, now) && before.longestGap.value <= STOP_GAP
    requires ReportedAs(after, Inserted(observations, i, o), cadenceMinutes, start, now)
    ensures after.verdict == Stop <==>
            StopsFrom(o.At(), FirstReadOrNow(observations, start, now), now, after.successful, cadenceMinutes)
  {
    EarlierReadStretches(observations, start, now, i, o, before, after);
    StretchedHurts(before, after, o.At(), FirstReadOrNow(observations, start, now), now, cadenceMinutes);
  }

  lemma ReadBeforeHurts(observations: seq<SourceObservation>, cadence: Option<int>, start: Time, now: Time,
                        i: nat, o: SourceObservation)
    requires cadence.Some? && cadence.value > 0 && i <= |observations|
    requires Clipped(observations, start, now) && o.At() < start <= now
    requires Reliability(observations, cadence, start, now).verdict != Stop
    ensures Reliability(Inserted(observations, i, o), cadence, start, now).verdict == Stop <==>
            StopsFrom(start, FirstReadOrNow(observations, start, now), now,
                      |Reads(observations, start, now)|, cadence.value)
  {
    ShortGapsUnlessStopped(observations, cadence, start, now);
    ReadBeforeTheWindowExactly(observations, cadence, start, now, i, o);
    StretchedHurts(Reliability(observations, cadence, start, now),
                   Reliability(Inserted(observations, i, o), cadence, start, now), start,
                   FirstReadOrNow(observations, start, now), now, cadence.value);
  }

  lemma UnmovedStartNeverHurts(observations: seq<SourceObservation>, cadence: Option<int>, start: Time, now: Time,
                               i: nat, o: SourceObservation)
    requires cadence.Some? && cadence.value > 0 && i <= |observations| && o.retrieval.Succeeded?
    requires !MovesTheStart(observations, start, now, o)
    ensures Reliability(Inserted(observations, i, o), cadence, start, now).verdict == Stop ==>
            Reliability(observations, cadence, start, now).verdict == Stop
  {
    if !(start <= o.At() <= now) {
      ClippedMeansNothingEarlier(observations, start, now);
      OutsideRowChangesNothing(observations, cadence, start, now, i, o);
    } else if StartStays(observations, start, now, o) {
      AnotherReadNeverHurts(observations, cadence, start, now, i, o);
    } else {
      FirstReadOfAnEmptyWindow(observations, cadence, start, now, i, o);
    }
  }

  // For every history and every successful read, wherever it is inserted and whenever it was made:
  // it turns a verdict into Stop exactly when it moves the start of the window and the first silence
  // or the completion from there is a Stop.
  lemma AReadHurtsExactly(observations: seq<SourceObservation>, cadence: Option<int>, start: Time, now: Time,
                          i: nat, o: SourceObservation)
    requires cadence.Some? && cadence.value > 0 && i <= |observations| && o.retrieval.Succeeded? && start <= now
    requires Reliability(observations, cadence, start, now).verdict != Stop
    ensures Reliability(Inserted(observations, i, o), cadence, start, now).verdict == Stop <==>
            && MovesTheStart(observations, start, now, o)
            && StopsFrom(MovedStart(start, now, o), FirstReadOrNow(observations, start, now), now,
                         ReadsWith(observations, start, now, o), cadence.value)
  {
    if observations == [] {
      assert Inserted([], 0, o) == [o];
      if start <= o.At() <= now {
        FirstReadInsideHurts(cadence, start, now, o);
      } else {
        FirstReadOutsideHurts(cadence, start, now, o);
      }
    } else if MovesTheStart(observations, start, now, o) {
      BeginIsInside(observations, start, now);
      if start <= o.At() {
        InsertedCount(observations, i, o, start, now);
        EarlierReadHurts(observations, cadence, start, now, i, o, ReadsWith(observations, start, now, o));
      } else {
        ReadBeforeHurts(observations, cadence, start, now, i, o);
      }
    } else {
      UnmovedStartNeverHurts(observations, cadence, start, now, i, o);
    }
  }
}
