// Which rows a report depends on: a capped newest-first listing is enough, and order is not part
// of the evidence.
module ReliabilityOrder {
  import opened Wrappers
  import opened Sequences
  import opened Domain
  import opened ReliabilityGate

  function AtOrAfter(start: Time): SourceObservation -> bool { (o: SourceObservation) => o.At() >= start }

  // ---- the report reads rows outside the window only through two bits ----

  lemma InsideIsSortedSelection(observations: seq<SourceObservation>, start: Time, now: Time)
    ensures Inside(observations, start, now) == SortBy(Filter(observations, InWindow(start, now)), ByTime())
  {
    FilterSort(observations, ByTime(), InWindow(start, now));
  }

  lemma WindowDecides(a: seq<SourceObservation>, b: seq<SourceObservation>, cadence: Option<int>,
                      start: Time, now: Time)
    requires cadence.Some? ==> cadence.value > 0
    requires Inside(a, start, now) == Inside(b, start, now)
    requires a == [] <==> b == []
    requires SomeBefore(a, start) <==> SomeBefore(b, start)
    ensures Reliability(a, cadence, start, now) == Reliability(b, cadence, start, now)
  {
    ClippedByTwoFacts(a, start, now);
    ClippedByTwoFacts(b, start, now);
  }

  // ---- a capped listing ----

  ghost predicate NewestFirst(rows: seq<SourceObservation>) {
    forall i, j :: 0 <= i < j < |rows| ==> rows[i].At() >= rows[j].At()
  }

  function FirstOf<T>(s: seq<T>, n: nat): seq<T> { if n <= |s| then s[..n] else s }

  lemma {:induction false} RecentRowsLead(rows: seq<SourceObservation>, start: Time, k: nat)
    requires NewestFirst(rows) && k < |rows|
    ensures rows[k].At() >= start <==> k < |Filter(rows, AtOrAfter(start))|
  {
    if rows[0].At() < start {
      FilterNone(rows, AtOrAfter(start));
    } else if k > 0 {
      RecentRowsLead(rows[1..], start, k - 1);
    }
  }

  lemma NothingDroppedIsRecent(rows: seq<SourceObservation>, cut: nat, start: Time, now: Time)
    requires NewestFirst(rows) && |Filter(rows, AtOrAfter(start))| <= cut < |rows|
    ensures Filter(rows[cut..], InWindow(start, now)) == []
  {
    var dropped := rows[cut..];
    RecentRowsLead(rows, start, cut);
    forall k | 0 <= k < |dropped| ensures !InWindow(start, now)(dropped[k]) {
      assert rows[cut].At() >= rows[cut + k].At();
    }
    FilterNone(dropped, InWindow(start, now));
  }

  lemma CapKeepsTheWindow(rows: seq<SourceObservation>, cut: nat, start: Time, now: Time)
    requires NewestFirst(rows) && |Filter(rows, AtOrAfter(start))| < cut < |rows|
    ensures Inside(rows[..cut], start, now) == Inside(rows, start, now)
    ensures SomeBefore(rows[..cut], start) && SomeBefore(rows, start)
  {
    var kept := rows[..cut];
    assert rows == kept + rows[cut..];
    NothingDroppedIsRecent(rows, cut, start, now);
    FilterConcat(kept, rows[cut..], InWindow(start, now));
    InsideIsSortedSelection(rows, start, now);
    InsideIsSortedSelection(kept, start, now);
    assert Filter(rows, InWindow(start, now)) == Filter(kept, InWindow(start, now));
    RecentRowsLead(rows, start, cut - 1);
    assert kept[cut - 1] in kept && kept[cut - 1] in rows;
  }

  // One row beyond the cap is enough: when at most `limit` rows are as recent as the window's
  // start, the newest limit + 1 rows give the report of the whole history, in every field.
  lemma CappedHistoryIsEnough(rows: seq<SourceObservation>, limit: nat, cadence: Option<int>, start: Time, now: Time)
    requires NewestFirst(rows)
    requires cadence.Some? ==> cadence.value > 0
    requires |Filter(rows, AtOrAfter(start))| <= limit
    ensures Reliability(FirstOf(rows, limit + 1), cadence, start, now) == Reliability(rows, cadence, start, now)
  {
    if limit + 1 < |rows| {
      CapKeepsTheWindow(rows, limit + 1, start, now);
      WindowDecides(rows[..limit + 1], rows, cadence, start, now);
    } else {
      assert FirstOf(rows, limit + 1) == rows;
    }
  }

  // Beyond that bound the cap shows: a capped listing that still reaches into the window reports a
  // clipped window although the source is older.
  lemma CappedHistoryBeyondTheBound(rows: seq<SourceObservation>, limit: nat, cadence: Option<int>,
                                    start: Time, now: Time)
    requires NewestFirst(rows) && SomeBefore(rows, start)
    requires cadence.Some? ==> cadence.value > 0
    requires |Filter(rows, AtOrAfter(start))| > limit
    requires exists o :: o in FirstOf(rows, limit + 1) && o.At() <= now
    ensures Reliability(FirstOf(rows, limit + 1), cadence, start, now).clipped
    ensures !Reliability(rows, cadence, start, now).clipped
  {
    var kept := FirstOf(rows, limit + 1);
    KeptRowsAreRecent(rows, limit, start);
    ClippedMeansNothingEarlier(kept, start, now);
    ClippedMeansNothingEarlier(rows, start, now);
  }

  lemma InsideCount(rows: seq<SourceObservation>, start: Time, now: Time)
    ensures |Inside(rows, start, now)| == |Filter(rows, InWindow(start, now))|
  {
    InsideIsSortedSelection(rows, start, now);
    SortCorrect(Filter(rows, InWindow(start, now)), ByTime());
  }

  lemma OldestRowIsLast(rows: seq<SourceObservation>, o: SourceObservation)
    requires NewestFirst(rows) && o in rows
    ensures rows[|rows| - 1].At() <= o.At()
  {
    var k :| 0 <= k < |rows| && rows[k] == o;
  }

  // When nothing precedes the window, the oldest row lies inside it.
  lemma OldestRowIsInside(rows: seq<SourceObservation>, start: Time, now: Time)
    requires NewestFirst(rows) && !SomeBefore(rows, start) && Inside(rows, start, now) != []
    ensures rows != [] && InWindow(start, now)(rows[|rows| - 1])
  {
    var o := Inside(rows, start, now)[0];
    assert o in Inside(rows, start, now);
    WindowContents(rows, start, now);
    OldestRowIsLast(rows, o);
    assert rows[|rows| - 1] in rows;
  }

  lemma SelectedInTwoParts(rows: seq<SourceObservation>, cut: nat, p: SourceObservation -> bool)
    requires cut <= |rows|
    ensures |Filter(rows, p)| == |Filter(rows[..cut], p)| + |Filter(rows[cut..], p)|
  {
    assert rows == rows[..cut] + rows[cut..];
    FilterConcat(rows[..cut], rows[cut..], p);
  }

  lemma LastIsSelected(rows: seq<SourceObservation>, p: SourceObservation -> bool)
    requires rows != [] && p(rows[|rows| - 1])
    ensures |Filter(rows, p)| > 0
  {
    assert rows[|rows| - 1] in Filter(rows, p);
  }

  // When nothing precedes the window, a row the cap drops is one the window loses.
  lemma DroppedRowsAreMissed(rows: seq<SourceObservation>, cut: nat, start: Time, now: Time)
    requires NewestFirst(rows) && cut < |rows| && !SomeBefore(rows, start) && Inside(rows, start, now) != []
    ensures |Inside(rows[..cut], start, now)| < |Inside(rows, start, now)|
  {
    SelectedInTwoParts(rows, cut, InWindow(start, now));
    InsideCount(rows, start, now);
    InsideCount(rows[..cut], start, now);
    OldestRowIsInside(rows, start, now);
    LastIsSelected(rows[cut..], InWindow(start, now));
  }

  // The capped report is the whole report exactly when the cap leaves out no row as recent as the
  // window's start (up to `limit` are, or there are no more rows than it lists) or the window is empty.
  lemma CappedHistoryExactly(rows: seq<SourceObservation>, limit: nat, cadence: Option<int>, start: Time, now: Time)
    requires NewestFirst(rows)
    requires cadence.Some? ==> cadence.value > 0
    ensures Reliability(FirstOf(rows, limit + 1), cadence, start, now) == Reliability(rows, cadence, start, now) <==>
            || |Filter(rows, AtOrAfter(start))| <= limit || |rows| <= limit + 1 || Inside(rows, start, now) == []
  {
    var kept := FirstOf(rows, limit + 1);
    if |Filter(rows, AtOrAfter(start))| <= limit {
      CappedHistoryIsEnough(rows, limit, cadence, start, now);
    } else if |rows| > limit + 1 {
      KeptRowsAreRecent(rows, limit, start);
      if Inside(rows, start, now) == [] {
        EmptyWindowStaysEmpty(rows, limit, cadence, start, now);
      } else if !SomeBefore(rows, start) {
        DroppedRowsAreMissed(rows, limit + 1, start, now);
      } else {
        ClippedByTwoFacts(kept, start, now);
        ClippedByTwoFacts(rows, start, now);
      }
    } else {
      assert kept == rows;
    }
  }

  lemma KeptRowsAreRecent(rows: seq<SourceObservation>, limit: nat, start: Time)
    requires NewestFirst(rows) && |Filter(rows, AtOrAfter(start))| > limit
    ensures !SomeBefore(FirstOf(rows, limit + 1), start)
  {
    var kept := FirstOf(rows, limit + 1);
    forall o | o in kept ensures start <= o.At() {
      var k :| 0 <= k < |kept| && kept[k] == o;
      RecentRowsLead(rows, start, k);
    }
  }

  lemma EmptyWindowStaysEmpty(rows: seq<SourceObservation>, limit: nat, cadence: Option<int>, start: Time, now: Time)
    requires cadence.Some? ==> cadence.value > 0
    requires limit + 1 < |rows| && Inside(rows, start, now) == []
    ensures Reliability(FirstOf(rows, limit + 1), cadence, start, now) == Reliability(rows, cadence, start, now)
  {
    var kept, dropped := rows[..limit + 1], rows[limit + 1..];
    assert rows == kept + dropped;
    FilterConcat(kept, dropped, InWindow(start, now));
    InsideCount(rows, start, now);
    InsideCount(kept, start, now);
  }

  // ---- order is not evidence ----

  lemma OrderDoesNotMatter(a: seq<SourceObservation>, b: seq<SourceObservation>, cadence: Option<int>,
                           start: Time, now: Time)
    requires cadence.Some? ==> cadence.value > 0
    requires multiset(a) == multiset(b)
    requires KeysIdentify(a, ByTime())
    ensures Reliability(a, cadence, start, now) == Reliability(b, cadence, start, now)
  {
    SameHistory(a, b);
    SameMembers(a, b);
    WindowDecides(a, b, cadence, start, now);
  }

  lemma SameHistory(a: seq<SourceObservation>, b: seq<SourceObservation>)
    requires multiset(a) == multiset(b)
    requires KeysIdentify(a, ByTime())
    ensures History(a) == History(b)
  {
    SortCorrect(a, ByTime());
    SortCorrect(b, ByTime());
    SortMembers(a, ByTime());
    forall i, j | 0 <= i < j < |History(a)| && ByTime()(History(a)[i]) == ByTime()(History(a)[j])
      ensures History(a)[i] == History(a)[j]
    {
      assert History(a)[i] in a && History(a)[j] in a;
    }
    SortedUnique(History(a), History(b), ByTime());
  }
}
