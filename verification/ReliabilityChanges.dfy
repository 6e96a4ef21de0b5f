// The content changes a report counts and the percentile of their delays, against a definition by
// positions: a change is a pair of neighbouring successful reads.
module ReliabilityChanges {
  import opened Wrappers
  import opened Sequences
  import opened Domain
  import opened ReliabilityGate

  // ---- nearest rank ----

  lemma SortedPrefixCount(sorted: seq<int>, k: nat)
    requires SortedBy(sorted, Same()) && k < |sorted|
    ensures |Filter(sorted, AtMost(sorted[k]))| >= k + 1
    ensures |Filter(sorted, Below(sorted[k]))| <= k
  {
    var p := sorted[k];
    assert sorted == sorted[..k + 1] + sorted[k + 1..];
    assert sorted == sorted[..k] + sorted[k..];
    FilterConcat(sorted[..k + 1], sorted[k + 1..], AtMost(p));
    FilterConcat(sorted[..k], sorted[k..], Below(p));
    forall x | x in sorted[..k + 1] ensures AtMost(p)(x) {
      var i :| 0 <= i < k + 1 && sorted[i] == x;
      assert Same()(sorted[i]) <= Same()(sorted[k]);
    }
    FilterAll(sorted[..k + 1], AtMost(p));
    forall x | x in sorted[k..] ensures !Below(p)(x) {
      var i :| k <= i < |sorted| && sorted[i] == x;
      assert Same()(sorted[k]) <= Same()(sorted[i]);
    }
    FilterNone(sorted[k..], Below(p));
  }

  lemma FilterOfSortedCounts(s: seq<int>, p: int -> bool)
    ensures |Filter(SortBy(s, Same()), p)| == |Filter(s, p)|
  {
    FilterSort(s, Same(), p);
    SortCorrect(Filter(s, p), Same());
  }

  lemma NoneIsLarger(latencies: seq<int>)
    requires latencies != []
    ensures |SortBy(latencies, Same())| == |latencies|
    ensures forall i :: 0 <= i < |latencies| ==> latencies[i] <= SortBy(latencies, Same())[|latencies| - 1]
  {
    SortCorrect(latencies, Same());
    forall i | 0 <= i < |latencies| ensures latencies[i] <= SortBy(latencies, Same())[|latencies| - 1] {
      SortMember(latencies, Same(), latencies[i]);
    }
  }

  lemma DetectionIsRanked(latencies: seq<int>) returns (p: int)
    requires latencies != []
    ensures DetectionP95(latencies) == Some(p) && p in latencies
    ensures |Filter(latencies, AtMost(p))| >= NearestRank(|latencies|) > |Filter(latencies, Below(p))|
  {
    SortCorrect(latencies, Same());
    p := SortBy(latencies, Same())[NearestRank(|latencies|) - 1];
    RankedValue(latencies, NearestRank(|latencies|) - 1);
  }

  lemma SlowestOfAFew(latencies: seq<int>, p: int)
    requires 0 < |latencies| < 20 && DetectionP95(latencies) == Some(p)
    ensures forall i :: 0 <= i < |latencies| ==> latencies[i] <= p
  {
    NoneIsLarger(latencies);
  }

  // The value at sorted position k has at least k + 1 delays up to it and at most k below it.
  lemma RankedValue(latencies: seq<int>, k: nat)
    requires k < |latencies| == |SortBy(latencies, Same())|
    ensures var p := SortBy(latencies, Same())[k];
            p in latencies && |Filter(latencies, AtMost(p))| >= k + 1 && |Filter(latencies, Below(p))| <= k
  {
    var sorted := SortBy(latencies, Same());
    SortCorrect(latencies, Same());
    SortedPrefixCount(sorted, k);
    FilterOfSortedCounts(latencies, AtMost(sorted[k]));
    FilterOfSortedCounts(latencies, Below(sorted[k]));
    SortMember(latencies, Same(), sorted[k]);
  }

  // ---- changes ----

  function AnyDelay(): int -> bool { (x: int) => true }
  function Exactly(d: int): int -> bool { (x: int) => x == d }

  // Two neighbouring successful reads carry different hashes.
  ghost predicate ChangedAt(found: seq<SourceObservation>, i: int) {
    && 0 <= i < |found| - 1 && HasHash(found[i]) && HasHash(found[i + 1])
    && found[i].contentHash != found[i + 1].contentHash
  }

  function DelayAt(found: seq<SourceObservation>, i: int): int
    requires 0 <= i < |found| - 1
  {
    found[i + 1].At() - found[i].At()
  }

  // The positions from k on of the changes whose delay satisfies q.
  ghost function ChangesFrom(found: seq<SourceObservation>, k: nat, q: int -> bool): set<int> {
    set i | k <= i < |found| - 1 && ChangedAt(found, i) && q(DelayAt(found, i))
  }

  ghost function Changes(found: seq<SourceObservation>, q: int -> bool): set<int> { ChangesFrom(found, 0, q) }

  lemma ChangesStep(found: seq<SourceObservation>, k: nat, q: int -> bool)
    requires k < |found| - 1
    ensures |ChangesFrom(found, k, q)|
         == |ChangesFrom(found, k + 1, q)| + if ChangedAt(found, k) && q(DelayAt(found, k)) then 1 else 0
  {
    var rest := ChangesFrom(found, k + 1, q);
    if ChangedAt(found, k) && q(DelayAt(found, k)) {
      assert ChangesFrom(found, k, q) == rest + {k};
    } else {
      assert ChangesFrom(found, k, q) == rest;
    }
  }

  lemma LatenciesStep(found: seq<SourceObservation>, k: nat, q: int -> bool)
    requires k < |found| - 1
    ensures |Filter(Latencies(found[k..]), q)|
         == |Filter(Latencies(found[k + 1..]), q)| + if ChangedAt(found, k) && q(DelayAt(found, k)) then 1 else 0
  {
    var rest := Latencies(found[k + 1..]);
    assert found[k..][1..] == found[k + 1..];
    if ChangedAt(found, k) {
      assert Latencies(found[k..]) == [DelayAt(found, k)] + rest;
      assert ([DelayAt(found, k)] + rest)[1..] == rest;
    } else {
      assert Latencies(found[k..]) == [] + rest;
      assert [] + rest == rest;
    }
  }

  lemma {:induction false} LatenciesAreChanges(found: seq<SourceObservation>, k: nat, q: int -> bool)
    requires k <= |found|
    ensures |Filter(Latencies(found[k..]), q)| == |ChangesFrom(found, k, q)|
    decreases |found| - k
  {
    if k < |found| - 1 {
      LatenciesAreChanges(found, k + 1, q);
      ChangesStep(found, k, q);
      LatenciesStep(found, k, q);
    } else {
      assert ChangesFrom(found, k, q) == {};
    }
  }

  lemma DelaysAreChanges(found: seq<SourceObservation>, q: int -> bool)
    ensures |Filter(Latencies(found), q)| == |Changes(found, q)|
  {
    LatenciesAreChanges(found, 0, q);
    assert found[0..] == found;
  }

  // For every property of a delay, the report has as many delays with it as there are neighbouring
  // successful reads with different hashes that lie so far apart; `changes` is the number of all.
  lemma ChangesAreCounted(observations: seq<SourceObservation>, cadence: Option<int>, start: Time, now: Time,
                          q: int -> bool)
    requires Measured(observations, cadence)
    ensures var found := Reads(observations, start, now);
            && Reliability(observations, cadence, start, now).changes == |Changes(found, AnyDelay())|
            && |Filter(Latencies(found), q)| == |Changes(found, q)|
  {
    var found := Reads(observations, start, now);
    DelaysAreChanges(found, AnyDelay());
    FilterAll(Latencies(found), AnyDelay());
    DelaysAreChanges(found, q);
  }

  // The reported percentile is the delay of some change; at least 95 % of the changes are no slower,
  // fewer than 95 % are faster; with fewer than 20 changes none is slower.
  lemma DetectionIsNearestRank(observations: seq<SourceObservation>, cadence: Option<int>, start: Time, now: Time)
    requires Measured(observations, cadence)
    ensures var r := Reliability(observations, cadence, start, now);
            var found := Reads(observations, start, now);
            && (r.detectionP95.Some? <==> r.changes > 0)
            && (r.detectionP95.Some? ==>
                  var p := r.detectionP95.value;
                  && Changes(found, Exactly(p)) != {}
                  && 20 * |Changes(found, AtMost(p))| >= 19 * r.changes
                  && 20 * |Changes(found, Below(p))| < 19 * r.changes
                  && (r.changes < 20 ==> Changes(found, MoreThan(p)) == {}))
  {
    var found := Reads(observations, start, now);
    ReportedDetection(observations, cadence, start, now);
    if Latencies(found) != [] {
      RankedChanges(found);
    }
  }

  lemma ReportedDetection(observations: seq<SourceObservation>, cadence: Option<int>, start: Time, now: Time)
    requires Measured(observations, cadence)
    ensures var r := Reliability(observations, cadence, start, now);
            var delays := Latencies(Reads(observations, start, now));
            r.detectionP95 == DetectionP95(delays) && r.changes == |delays|
  {
  }

  lemma RankedChanges(found: seq<SourceObservation>)
    requires Latencies(found) != []
    ensures DetectionP95(Latencies(found)).Some?
    ensures var p, n := DetectionP95(Latencies(found)).value, |Latencies(found)|;
            && Changes(found, Exactly(p)) != {}
            && 20 * |Changes(found, AtMost(p))| >= 19 * n && 20 * |Changes(found, Below(p))| < 19 * n
            && (n < 20 ==> Changes(found, MoreThan(p)) == {})
  {
    var delays := Latencies(found);
    var p := DetectionIsRanked(delays);
    DelaysAreChanges(found, AtMost(p));
    DelaysAreChanges(found, Below(p));
    DelaysAreChanges(found, Exactly(p));
    assert p in Filter(delays, Exactly(p));
    if |delays| < 20 {
      SlowestOfAFew(delays, p);
      FilterNone(delays, MoreThan(p));
      DelaysAreChanges(found, MoreThan(p));
    }
  }
}
