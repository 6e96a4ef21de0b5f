// Exactly when a report says Pass, Watch, Stop or Unknown, and what its numbers count, stated on the
// unsorted history and in hours and percent.
module ReliabilityVerdict {
  import opened Wrappers
  import opened Sequences
  import opened Domain
  import opened ReliabilityGate
  import opened ReliabilityLaws
  import opened ReliabilityChanges

  // ---- counting by position ----

  ghost function Positions<T>(s: seq<T>, p: T -> bool): set<int> { set i | 0 <= i < |s| && p(s[i]) }

  lemma PositionsStep<T>(s: seq<T>, n: nat, p: T -> bool)
    requires |s| == n + 1
    ensures |Positions(s, p)| == |Positions(s[..n], p)| + if p(s[n]) then 1 else 0
  {
    var front := Positions(s[..n], p);
    assert forall i :: 0 <= i < n ==> s[..n][i] == s[i];
    if p(s[n]) {
      assert Positions(s, p) == front + {n};
    } else {
      assert Positions(s, p) == front;
    }
  }

  lemma {:induction false} SelectedArePositions<T(!new)>(s: seq<T>, p: T -> bool)
    ensures |Filter(s, p)| == |Positions(s, p)|
  {
    if s == [] {
      assert Positions(s, p) == {};
    } else {
      var n := |s| - 1;
      SelectedArePositions(s[..n], p);
      FilterStep(s, n, p);
      assert s[..n + 1] == s;
      PositionsStep(s, n, p);
    }
  }

  ghost function Within(start: Time, now: Time): SourceObservation -> bool {
    (o: SourceObservation) => start <= o.At() <= now
  }
  ghost function ReadWithin(start: Time, now: Time): SourceObservation -> bool {
    (o: SourceObservation) => start <= o.At() <= now && o.retrieval == Succeeded
  }

  lemma RowsAreCounted(observations: seq<SourceObservation>, start: Time, now: Time)
    ensures |Inside(observations, start, now)| == |Positions(observations, Within(start, now))|
    ensures |Reads(observations, start, now)| == |Positions(observations, ReadWithin(start, now))|
  {
    FilterSort(observations, ByTime(), Within(start, now));
    SortCorrect(Filter(observations, Within(start, now)), ByTime());
    SelectedArePositions(observations, Within(start, now));
    SameFilter(History(observations), InWindow(start, now), Within(start, now));
    CountByFilter(observations, start, now, ReadWithin(start, now));
    SelectedArePositions(observations, ReadWithin(start, now));
  }

  // ---- the percentile against a bound ----

  lemma AtMostUpTo(sorted: seq<int>, limit: int, k: nat)
    requires SortedBy(sorted, Same()) && k < |sorted| && sorted[k] <= limit
    ensures |Filter(sorted, AtMost(limit))| > k
  {
    assert sorted == sorted[..k + 1] + sorted[k + 1..];
    FilterConcat(sorted[..k + 1], sorted[k + 1..], AtMost(limit));
    forall x | x in sorted[..k + 1] ensures AtMost(limit)(x) {
      var i :| 0 <= i < k + 1 && sorted[i] == x;
      assert Same()(sorted[i]) <= Same()(sorted[k]);
    }
    FilterAll(sorted[..k + 1], AtMost(limit));
  }

  lemma MoreFrom(sorted: seq<int>, limit: int, k: nat)
    requires SortedBy(sorted, Same()) && k < |sorted| && sorted[k] > limit
    ensures |Filter(sorted, AtMost(limit))| <= k
  {
    assert sorted == sorted[..k] + sorted[k..];
    FilterConcat(sorted[..k], sorted[k..], AtMost(limit));
    forall x | x in sorted[k..] ensures !AtMost(limit)(x) {
      var i :| k <= i < |sorted| && sorted[i] == x;
      assert Same()(sorted[k]) <= Same()(sorted[i]);
    }
    FilterNone(sorted[k..], AtMost(limit));
  }

  // The percentile is within a bound exactly when at least 95 % of the delays are.
  lemma PercentileWithin(delays: seq<int>, limit: int)
    requires delays != []
    ensures DetectionP95(delays).Some?
    ensures DetectionP95(delays).value <= limit <==> 20 * |Filter(delays, AtMost(limit))| >= 19 * |delays|
  {
    var k := NearestRank(|delays|) - 1;
    SortCorrect(delays, Same());
    var sorted := SortBy(delays, Same());
    if sorted[k] <= limit {
      AtMostUpTo(sorted, limit, k);
    } else {
      MoreFrom(sorted, limit, k);
    }
    FilterOfSortedCounts(delays, AtMost(limit));
  }

  // ---- completion against a bound ----

  lemma CompletionAtLeast(found: nat, expected: int, percent: nat)
    requires expected > 0 && percent <= 100
    ensures Completion(found, expected).Some?
    ensures Completion(found, expected).value >= percent as real <==> 100 * found >= percent * expected
  {
    var done := 100.0 * found as real / expected as real;
    assert done * expected as real == 100.0 * found as real;
    if done >= percent as real {
      assert done * expected as real >= percent as real * expected as real;
    } else {
      assert done * expected as real < percent as real * expected as real;
    }
  }

  // ---- the fields of a measured report ----

  // At least one successful read lies in the window, and each such read has a content hash.
  ghost predicate EveryReadHashed(observations: seq<SourceObservation>, start: Time, now: Time) {
    && (exists o :: o in observations && start <= o.At() <= now && o.retrieval == Succeeded)
    && forall o :: o in observations && start <= o.At() <= now && o.retrieval == Succeeded ==>
         o.contentHash != None && o.contentHash != Some("")
  }

  lemma ReadsAllHashed(observations: seq<SourceObservation>, start: Time, now: Time)
    ensures AllHashed(Reads(observations, start, now)) <==> EveryReadHashed(observations, start, now)
  {
    var found := Reads(observations, start, now);
    WindowContents(observations, start, now);
    assert found != [] ==> found[0] in found;
  }

  lemma HashedField(observations: seq<SourceObservation>, cadence: Option<int>, start: Time, now: Time)
    requires cadence.Some? ==> cadence.value > 0
    ensures Reliability(observations, cadence, start, now).hashed == AllHashed(Reads(observations, start, now))
  {
  }

  lemma HashedExactly(observations: seq<SourceObservation>, cadence: Option<int>, start: Time, now: Time)
    requires cadence.Some? ==> cadence.value > 0
    ensures Reliability(observations, cadence, start, now).hashed <==> EveryReadHashed(observations, start, now)
  {
    HashedField(observations, cadence, start, now);
    ReadsAllHashed(observations, start, now);
  }

  lemma DetectionWithin(observations: seq<SourceObservation>, cadence: Option<int>, start: Time, now: Time, limit: int)
    requires Measured(observations, cadence)
    ensures var r := Reliability(observations, cadence, start, now);
            (r.detectionP95.None? || r.detectionP95.value <= limit) <==>
            20 * |Changes(Reads(observations, start, now), AtMost(limit))| >= 19 * r.changes
  {
    var found := Reads(observations, start, now);
    ReportedDetection(observations, cadence, start, now);
    DelaysAreChanges(found, AtMost(limit));
    if Latencies(found) != [] {
      PercentileWithin(Latencies(found), limit);
    }
  }

  // How the fields of a measured report decide its verdict, in the report's own numbers.
  ghost predicate Decided(r: SourceReliability) {
    && r.longestGap.Some? && r.completion == Completion(r.successful, r.expected)
    && r.verdict == Judge(r.clipped, r.completion, r.longestGap.value, r.hashed, r.detectionP95)
  }

  lemma MeasuredIsDecided(observations: seq<SourceObservation>, cadence: Option<int>, start: Time, now: Time)
    requires Measured(observations, cadence)
    ensures Decided(Reliability(observations, cadence, start, now))
  {
  }

  ghost predicate TooFewReads(r: SourceReliability) {
    r.expected < 0 || (r.expected > 0 && 100 * r.successful < 90 * r.expected)
  }

  lemma LowCompletion(r: SourceReliability)
    requires Decided(r)
    ensures r.completion.Some? && r.completion.value < STOP_COMPLETION <==> TooFewReads(r)
    ensures r.completion.Some? && r.completion.value >= PASS_COMPLETION <==>
            r.expected > 0 && 100 * r.successful >= 95 * r.expected
  {
    if r.expected > 0 {
      CompletionAtLeast(r.successful, r.expected, 90);
      CompletionAtLeast(r.successful, r.expected, 95);
    } else if r.expected < 0 {
      NegativeCompletion(r.successful, r.expected);
    }
  }

  lemma NegativeCompletion(found: nat, expected: int)
    requires expected < 0
    ensures Completion(found, expected).Some? && Completion(found, expected).value <= 0.0
  {
    var done := 100.0 * found as real / expected as real;
    assert done * expected as real == 100.0 * found as real;
  }

  lemma VerdictOfFields(r: SourceReliability)
    requires Decided(r)
    ensures r.verdict != Unknown
    ensures r.verdict == Stop <==> r.longestGap.value > 66_600_000_000 || TooFewReads(r)
    ensures r.verdict == Pass <==>
            && !r.clipped && r.expected > 0 && 100 * r.successful >= 95 * r.expected
            && r.longestGap.value <= 66_600_000_000 && r.hashed
            && (r.detectionP95.None? || r.detectionP95.value <= 23_400_000_000)
  {
    LowCompletion(r);
  }

  // ---- the verdict ----

  // Unknown is exactly "no cadence, or never observed"; nothing is measured then.
  lemma UnknownExactly(observations: seq<SourceObservation>, cadence: Option<int>, start: Time, now: Time)
    requires cadence.Some? ==> cadence.value > 0
    ensures var r := Reliability(observations, cadence, start, now);
            && (r.verdict == Unknown <==> cadence == None || observations == [])
            && (r.verdict == Unknown ==> r.expected == 0 && r.completion == None && r.longestGap == None
                                         && r.gapsOverWindow == 0 && r.changes == 0 && r.detectionP95 == None)
  {
    if Measured(observations, cadence) {
      MeasuredIsDecided(observations, cadence, start, now);
      VerdictOfFields(Reliability(observations, cadence, start, now));
    }
  }

  // A measured source stops exactly when it was silent for more than 18.5 hours or read under 90 % of
  // the expected times.
  lemma StopExactly(observations: seq<SourceObservation>, cadence: Option<int>, start: Time, now: Time)
    requires cadence.Some? ==> cadence.value > 0
    ensures var r := Reliability(observations, cadence, start, now);
            r.verdict == Stop <==>
            && cadence.Some? && observations != []
            && ((r.longestGap.Some? && r.longestGap.value > 66_600_000_000) || TooFewReads(r))
  {
    UnknownExactly(observations, cadence, start, now);
    if Measured(observations, cadence) {
      MeasuredIsDecided(observations, cadence, start, now);
      VerdictOfFields(Reliability(observations, cadence, start, now));
    }
  }

  // It passes exactly when some row precedes the window, it was never silent for more than 18.5 hours,
  // at least 95 % of the expected reads succeeded, every read of the window carries a hash, and at
  // least 95 % of the changes were seen within 6.5 hours.
  lemma PassExactly(observations: seq<SourceObservation>, cadence: Option<int>, start: Time, now: Time)
    requires cadence.Some? ==> cadence.value > 0
    ensures var r := Reliability(observations, cadence, start, now);
            r.verdict == Pass <==>
            && cadence.Some? && observations != []
            && (exists o :: o in observations && o.At() < start)
            && r.longestGap.Some? && r.longestGap.value <= 66_600_000_000
            && r.expected > 0 && 100 * r.successful >= 95 * r.expected
            && EveryReadHashed(observations, start, now)
            && 20 * |Changes(Reads(observations, start, now), AtMost(23_400_000_000))| >= 19 * r.changes
  {
    UnknownExactly(observations, cadence, start, now);
    if Measured(observations, cadence) {
      MeasuredIsDecided(observations, cadence, start, now);
      VerdictOfFields(Reliability(observations, cadence, start, now));
      HashedExactly(observations, cadence, start, now);
      DetectionWithin(observations, cadence, start, now, 23_400_000_000);
      UnclippedExactly(observations, cadence, start, now);
    }
  }

  // Once a read lies in the window, it is unclipped exactly when some row precedes it.
  lemma UnclippedExactly(observations: seq<SourceObservation>, cadence: Option<int>, start: Time, now: Time)
    requires cadence.Some? ==> cadence.value > 0
    ensures EveryReadHashed(observations, start, now) ==>
              (!Reliability(observations, cadence, start, now).clipped <==>
                 exists o :: o in observations && o.At() < start)
  {
    ClippedMeansNothingEarlier(observations, start, now);
    assert Reliability(observations, cadence, start, now).clipped == Clipped(observations, start, now);
  }

  // ---- what the numbers of a report count ----

  // The stretches a report measures run from the start to the first read, between reads, and to now.
  function Edge(begin: Time, found: seq<SourceObservation>, now: Time, i: int): Time {
    if i <= 0 then begin else if i <= |found| then found[i - 1].At() else now
  }

  function Stretch(begin: Time, found: seq<SourceObservation>, now: Time, i: int): int {
    Edge(begin, found, now, i + 1) - Edge(begin, found, now, i)
  }

  ghost function LongStretches(begin: Time, found: seq<SourceObservation>, now: Time, limit: int): set<int> {
    set i | 0 <= i <= |found| && Stretch(begin, found, now, i) > limit
  }

  lemma LongGapsAreStretches(begin: Time, found: seq<SourceObservation>, now: Time, limit: int)
    ensures |Filter(Gaps(Points(begin, found, now)), MoreThan(limit))| == |LongStretches(begin, found, now, limit)|
  {
    var points := Points(begin, found, now);
    GapsCount(points);
    SelectedArePositions(Gaps(points), MoreThan(limit));
    forall i | 0 <= i <= |found| ensures Gaps(points)[i] == Stretch(begin, found, now, i) {
      assert points[i] == Edge(begin, found, now, i) && points[i + 1] == Edge(begin, found, now, i + 1);
    }
    assert Positions(Gaps(points), MoreThan(limit)) == LongStretches(begin, found, now, limit);
  }

  // The rows, the successful reads and the long stretches a measured report counts.
  lemma CountsExactly(observations: seq<SourceObservation>, cadence: Option<int>, start: Time, now: Time)
    requires Measured(observations, cadence)
    ensures var r := Reliability(observations, cadence, start, now);
            && r.recorded == |Positions(observations, Within(start, now))|
            && r.successful == |Positions(observations, ReadWithin(start, now))|
            && r.gapsOverWindow == |LongStretches(r.start, Reads(observations, start, now), now, 23_400_000_000)|
  {
    RowsAreCounted(observations, start, now);
    LongGapsAreStretches(Begin(observations, start, now), Reads(observations, start, now), now, FRESHNESS_WINDOW);
    NumberFields(observations, cadence, start, now);
  }

  // That many whole cadences fit into the span.
  ghost predicate FitInto(span: int, n: int, cadenceMinutes: int) {
    n * (cadenceMinutes * 60_000_000) <= span < (n + 1) * (cadenceMinutes * 60_000_000)
  }

  // The expected reads are the whole cadences of the measured window, counted backwards where it ends
  // before it begins.
  lemma ExpectedExactly(observations: seq<SourceObservation>, cadence: Option<int>, start: Time, now: Time)
    requires Measured(observations, cadence)
    ensures var r := Reliability(observations, cadence, start, now);
            && (r.start <= now ==> FitInto(now - r.start, r.expected, cadence.value))
            && (now <= r.start ==> FitInto(r.start - now, -r.expected, cadence.value))
  {
    NumberFields(observations, cadence, start, now);
    WholeCadences(now - Begin(observations, start, now), cadence.value);
  }

  lemma NumberFields(observations: seq<SourceObservation>, cadence: Option<int>, start: Time, now: Time)
    requires Measured(observations, cadence)
    ensures var r, begin := Reliability(observations, cadence, start, now), Begin(observations, start, now);
            && r.start == begin && r.recorded == |Inside(observations, start, now)|
            && r.successful == |Reads(observations, start, now)| && r.expected == Expected(now - begin, cadence.value)
            && r.gapsOverWindow == |Filter(WindowGaps(observations, start, now), MoreThan(FRESHNESS_WINDOW))|
  {
  }

  lemma WholeCadences(span: int, cadenceMinutes: int)
    requires cadenceMinutes > 0
    ensures span >= 0 ==> FitInto(span, Expected(span, cadenceMinutes), cadenceMinutes)
    ensures span <= 0 ==> FitInto(-span, -Expected(span, cadenceMinutes), cadenceMinutes)
  {
    var unit := cadenceMinutes * 60_000_000;
    var length := if span >= 0 then span else -span;
    assert length == length / unit * unit + length % unit;
  }

  // The percentage shown: the share of the expected reads, at most 100, and none where none is expected.
  ghost predicate ShareOf(completion: Option<real>, found: nat, expected: int) {
    match completion
    case None => expected == 0
    case Some(percent) =>
      && expected != 0
      && (0 < expected <= found ==> percent == 100.0)
      && (found < expected ==> percent * expected as real == 100.0 * found as real)
  }

  lemma CompletionExactly(observations: seq<SourceObservation>, cadence: Option<int>, start: Time, now: Time)
    requires Measured(observations, cadence)
    ensures var r := Reliability(observations, cadence, start, now);
            ShareOf(r.completion, r.successful, r.expected)
  {
    MeasuredIsDecided(observations, cadence, start, now);
    CompletionOfFields(Reliability(observations, cadence, start, now));
  }

  lemma CompletionOfFields(r: SourceReliability)
    requires Decided(r)
    ensures ShareOf(r.completion, r.successful, r.expected)
  {
    CompletionShown(r.successful, r.expected);
  }

  lemma CompletionShown(found: nat, expected: int)
    ensures Completion(found, expected) == None <==> expected == 0
    ensures expected > 0 && found >= expected ==> Completion(found, expected) == Some(100.0)
    ensures expected > 0 && found < expected ==>
              Completion(found, expected).value * expected as real == 100.0 * found as real
  {
    if expected > 0 {
      var done := 100.0 * found as real / expected as real;
      assert done * expected as real == 100.0 * found as real;
      if found >= expected {
        assert 100.0 * found as real >= 100.0 * expected as real;
      }
    }
  }

  // Where the measured window begins.
  lemma StartExactly(observations: seq<SourceObservation>, cadence: Option<int>, start: Time, now: Time)
    requires cadence.Some? ==> cadence.value > 0
    ensures var r := Reliability(observations, cadence, start, now);
            && (r.clipped <==> && (exists o :: o in observations && start <= o.At() <= now)
                               && forall o :: o in observations ==> start <= o.At())
            && (!r.clipped ==> r.start == start)
            && (r.clipped ==> (exists o :: o in observations && o.At() == r.start)
                              && forall o :: o in observations ==> r.start <= o.At())
  {
    ClippedMeansNothingEarlier(observations, start, now);
    StartField(observations, cadence, start, now);
  }

  lemma StartField(observations: seq<SourceObservation>, cadence: Option<int>, start: Time, now: Time)
    requires cadence.Some? ==> cadence.value > 0
    ensures Reliability(observations, cadence, start, now).start == Begin(observations, start, now)
    ensures Reliability(observations, cadence, start, now).clipped == Clipped(observations, start, now)
  {
  }
}
