// The source-health gate over a window of observations
// (apps/api/paxpivot/application/source_reliability.py).
module ReliabilityGate {
  import opened Wrappers
  import opened Sequences
  import opened Domain

  const FRESHNESS_WINDOW: int := 23_400_000_000  // 6.5 hours
  const STOP_GAP: int := FRESHNESS_WINDOW + 12 * MICROS_PER_HOUR
  const PASS_COMPLETION: real := 95.0
  const STOP_COMPLETION: real := 90.0

  datatype Verdict = Pass | Watch | Stop | Unknown

  datatype SourceReliability = SourceReliability(
    start: Time, clipped: bool, expected: int, recorded: nat, successful: nat,
    completion: Option<real>, longestGap: Option<int>, gapsOverWindow: nat, hashed: bool,
    changes: nat, detectionP95: Option<int>, verdict: Verdict)

  // ---- the selections the report makes, named so that two uses are the same function ----

  function ByTime(): SourceObservation -> int { (o: SourceObservation) => o.At() }
  function InWindow(start: Time, now: Time): SourceObservation -> bool {
    (o: SourceObservation) => start <= o.At() <= now
  }
  function IsRead(): SourceObservation -> bool { (o: SourceObservation) => o.retrieval.Succeeded? }
  function MoreThan(limit: int): int -> bool { (x: int) => x > limit }
  function AtMost(limit: int): int -> bool { (x: int) => x <= limit }
  function Below(limit: int): int -> bool { (x: int) => x < limit }
  function Same(): int -> int { (x: int) => x }

  // A content hash counts only when it is there and not the empty text.
  predicate HasHash(o: SourceObservation) { o.contentHash.Some? && o.contentHash.value != "" }

  function History(observations: seq<SourceObservation>): seq<SourceObservation> {
    SortBy(observations, ByTime())
  }

  function Inside(observations: seq<SourceObservation>, start: Time, now: Time): seq<SourceObservation> {
    Filter(History(observations), InWindow(start, now))
  }

  function Reads(observations: seq<SourceObservation>, start: Time, now: Time): seq<SourceObservation> {
    Filter(Inside(observations, start, now), IsRead())
  }

  predicate Clipped(observations: seq<SourceObservation>, start: Time, now: Time) {
    && Inside(observations, start, now) != []
    && (SortCorrect(observations, ByTime()); History(observations) != [])
    && History(observations)[0].At() >= start
  }

  function Begin(observations: seq<SourceObservation>, start: Time, now: Time): Time {
    if Clipped(observations, start, now) then Inside(observations, start, now)[0].At() else start
  }

  // `pairwise` differences.
  function Gaps(points: seq<Time>): seq<int> {
    if |points| < 2 then [] else [points[1] - points[0]] + Gaps(points[1..])
  }

  function Points(begin: Time, successes: seq<SourceObservation>, now: Time): seq<Time> {
    [begin] + Map(successes, ByTime()) + [now]
  }

  function MaxOf(s: seq<int>): int
    requires s != []
  {
    if |s| == 1 || s[0] >= MaxOf(s[1..]) then s[0] else MaxOf(s[1..])
  }

  // The time between neighbouring successful reads, the window's edges included.
  function WindowGaps(observations: seq<SourceObservation>, start: Time, now: Time): (gaps: seq<int>)
    ensures gaps != []
  {
    Gaps(Points(Begin(observations, start, now), Reads(observations, start, now), now))
  }

  // Delay of every content change seen between two neighbouring hashed reads.
  function Latencies(successes: seq<SourceObservation>): seq<int> {
    if |successes| < 2 then []
    else (if HasHash(successes[0]) && HasHash(successes[1]) && successes[0].contentHash != successes[1].contentHash
          then [successes[1].At() - successes[0].At()] else [])
         + Latencies(successes[1..])
  }

  // ceil(0.95 * n), as an exact rational.
  function NearestRank(n: nat): nat { (19 * n + 19) / 20 }

  function DetectionP95(latencies: seq<int>): Option<int> {
    if latencies == [] then None
    else
      SortCorrect(latencies, Same());
      Some(SortBy(latencies, Same())[NearestRank(|latencies|) - 1])
  }

  // Python's int() of a quotient truncates toward zero.
  function TruncatedQuotient(a: int, b: int): int
    requires b > 0
  {
    if a >= 0 then a / b else -((-a) / b)
  }

  function Expected(span: int, cadenceMinutes: int): int
    requires cadenceMinutes > 0
  {
    TruncatedQuotient(span, cadenceMinutes * MICROS_PER_MINUTE)
  }

  function Completion(successes: nat, expected: int): Option<real> {
    if expected == 0 then None
    else
      var percent := 100.0 * successes as real / expected as real;
      Some(if percent < 100.0 then percent else 100.0)
  }

  function Judge(clipped: bool, completion: Option<real>, longest: int, hashed: bool, p95: Option<int>): Verdict {
    if (completion.Some? && completion.value < STOP_COMPLETION) || longest > STOP_GAP then Stop
    else if !clipped && completion.Some? && completion.value >= PASS_COMPLETION
            && hashed && (p95.None? || p95.value <= FRESHNESS_WINDOW) then Pass
    else Watch
  }

  predicate AllHashed(successes: seq<SourceObservation>) {
    successes != [] && forall o | o in successes :: HasHash(o)
  }

  function Measurement(begin: Time, clipped: bool, recorded: nat, successful: nat, hashed: bool, gaps: seq<int>,
                       latencies: seq<int>, expected: int): SourceReliability
    requires gaps != []
  {
    var completion := Completion(successful, expected);
    var p95 := DetectionP95(latencies);
    var longest := MaxOf(gaps);
    SourceReliability(
      begin, clipped, expected, recorded, successful, completion, Some(longest),
      |Filter(gaps, MoreThan(FRESHNESS_WINDOW))|, hashed, |latencies|, p95,
      Judge(clipped, completion, longest, hashed, p95))
  }

  // The report computed from the rows inside the window and the two facts it takes from the rest
  // of the history. A cadence, where there is one, is positive by the register's own field rule.
  function Report(inside: seq<SourceObservation>, anyHistory: bool, clipped: bool,
                  cadence: Option<int>, start: Time, now: Time): SourceReliability
    requires cadence.Some? ==> cadence.value > 0
    requires clipped ==> inside != []
  {
    var begin := if clipped then inside[0].At() else start;
    var successes := Filter(inside, IsRead());
    var hashed := AllHashed(successes);
    if cadence.None? || !anyHistory then
      SourceReliability(begin, clipped, 0, |inside|, |successes|, None, None, 0, hashed, 0, None, Unknown)
    else
      Measurement(begin, clipped, |inside|, |successes|, hashed, Gaps(Points(begin, successes, now)),
                  Latencies(successes), Expected(now - begin, cadence.value))
  }

  function Reliability(observations: seq<SourceObservation>, cadence: Option<int>, start: Time, now: Time)
    : SourceReliability
    requires cadence.Some? ==> cadence.value > 0
  {
    Report(Inside(observations, start, now), observations != [], Clipped(observations, start, now),
           cadence, start, now)
  }

  ghost predicate Measured(observations: seq<SourceObservation>, cadence: Option<int>) {
    cadence.Some? && cadence.value > 0 && observations != []
  }

  // ---- what the selections contain ----

  lemma WindowContents(observations: seq<SourceObservation>, start: Time, now: Time)
    ensures forall o :: o in Inside(observations, start, now) <==> o in observations && start <= o.At() <= now
    ensures forall o :: o in Reads(observations, start, now) <==>
              o in observations && start <= o.At() <= now && o.retrieval.Succeeded?
    ensures SortedBy(Inside(observations, start, now), ByTime())
    ensures SortedBy(Reads(observations, start, now), ByTime())
  {
    SortCorrect(observations, ByTime());
    SortMembers(observations, ByTime());
    FilterSorted(History(observations), ByTime(), InWindow(start, now));
    FilterSorted(Inside(observations, start, now), ByTime(), IsRead());
  }

  // A window is clipped exactly when it holds a row and no row at all precedes it; it then begins
  // at the earliest observation of the whole history.
  lemma ClippedMeansNothingEarlier(observations: seq<SourceObservation>, start: Time, now: Time)
    ensures Clipped(observations, start, now) <==>
            && (exists o :: o in observations && start <= o.At() <= now)
            && forall o :: o in observations ==> start <= o.At()
    ensures Clipped(observations, start, now) ==>
            && (exists o :: o in observations && o.At() == Begin(observations, start, now))
            && forall o :: o in observations ==> Begin(observations, start, now) <= o.At()
    ensures start <= now ==> start <= Begin(observations, start, now) <= now
  {
    var history, inside := History(observations), Inside(observations, start, now);
    WindowContents(observations, start, now);
    SortCorrect(observations, ByTime());
    SortMembers(observations, ByTime());
    assert inside != [] ==> inside[0] in inside;
    if inside != [] {
      assert inside[0] in observations;
      forall o | o in observations ensures history[0].At() <= o.At() {
        assert o in history;
      }
      if Clipped(observations, start, now) {
        assert history[0] in history;
        assert history[0] in observations && history[0].At() <= now;
        assert history[0] in inside;
        forall o | o in observations ensures inside[0].At() <= o.At() {
          assert inside[0].At() <= history[0].At();
        }
      }
    }
  }

  ghost predicate SomeBefore(observations: seq<SourceObservation>, start: Time) {
    exists o :: o in observations && o.At() < start
  }

  lemma ClippedByTwoFacts(observations: seq<SourceObservation>, start: Time, now: Time)
    ensures Clipped(observations, start, now) <==>
            Inside(observations, start, now) != [] && !SomeBefore(observations, start)
  {
    ClippedMeansNothingEarlier(observations, start, now);
    WindowContents(observations, start, now);
    if Inside(observations, start, now) != [] {
      assert Inside(observations, start, now)[0] in Inside(observations, start, now);
    }
  }

  lemma {:induction false} MaxOfBounds(s: seq<int>)
    requires s != []
    ensures MaxOf(s) in s
    ensures forall i :: 0 <= i < |s| ==> s[i] <= MaxOf(s)
  {
    if |s| > 1 {
      MaxOfBounds(s[1..]);
      forall i | 0 <= i < |s| ensures s[i] <= MaxOf(s) {
        assert i == 0 || s[i] == s[1..][i - 1];
      }
    }
  }
}
